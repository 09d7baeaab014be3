/** Selecting the k nearest of a multiset of (distance, label) pairs, and merging selections. */
module Nearest {
  import opened TreeReduction

  datatype Pair = Pair(dist: real, cls: real)

  /** `row` lists k nearest pairs of `all`, nearest first: what is left out is no nearer. */
  ghost predicate KNearest(row: seq<Pair>, all: multiset<Pair>, k: nat) {
    && |row| == k && multiset(row) <= all
    && (forall i, j | 0 <= i < j < |row| :: row[i].dist <= row[j].dist)
    && (forall p, i | p in all - multiset(row) && 0 <= i < |row| :: row[i].dist <= p.dist)
  }

  // ---------- Ordering by distance ----------

  predicate InBounds(ix: seq<nat>, n: nat) {
    forall i | 0 <= i < |ix| :: ix[i] < n
  }

  /** Puts index `j` behind every index whose distance is not larger. */
  function Insert(ds: seq<real>, ix: seq<nat>, j: nat): (r: seq<nat>)
    requires j < |ds| && InBounds(ix, |ds|)
    ensures |r| == |ix| + 1 && InBounds(r, |ds|)
  {
    if ix == [] || ds[j] < ds[ix[0]] then [j] + ix else [ix[0]] + Insert(ds, ix[1..], j)
  }

  /** `sort(d, index.return = TRUE)$ix`, zero-based: a stable ascending order of the positions. */
  function Order(ds: seq<real>, n: nat): (ix: seq<nat>)
    requires n <= |ds|
    ensures |ix| == n && InBounds(ix, |ds|)
  {
    if n == 0 then [] else Insert(ds, Order(ds, n - 1), n - 1)
  }

  function Gather<T>(xs: seq<T>, ix: seq<nat>): (r: seq<T>)
    requires InBounds(ix, |xs|)
    ensures |r| == |ix| && forall i | 0 <= i < |ix| :: r[i] == xs[ix[i]]
  {
    seq(|ix|, i requires 0 <= i < |ix| => xs[ix[i]])
  }

  ghost predicate Ascending(ds: seq<real>, ix: seq<nat>)
    requires InBounds(ix, |ds|)
  {
    forall i, j | 0 <= i < j < |ix| :: ds[ix[i]] <= ds[ix[j]]
  }

  lemma AscendingCons(ds: seq<real>, x: nat, ix: seq<nat>)
    requires x < |ds| && InBounds(ix, |ds|) && Ascending(ds, ix)
    requires forall m | 0 <= m < |ix| :: ds[x] <= ds[ix[m]]
    ensures InBounds([x] + ix, |ds|) && Ascending(ds, [x] + ix)
  {
  }

  lemma {:induction false} InsertAscends(ds: seq<real>, ix: seq<nat>, j: nat)
    requires j < |ds| && InBounds(ix, |ds|) && Ascending(ds, ix)
    ensures Ascending(ds, Insert(ds, ix, j))
    ensures forall x | x in Insert(ds, ix, j) :: x == j || x in ix
  {
    if ix != [] && ds[j] >= ds[ix[0]] {
      InsertAscends(ds, ix[1..], j);
      var rest := Insert(ds, ix[1..], j);
      forall m | 0 <= m < |rest|
        ensures ds[ix[0]] <= ds[rest[m]]
      {
        assert rest[m] in rest;
        if rest[m] != j {
          var n :| 0 <= n < |ix[1..]| && ix[1..][n] == rest[m];
        }
      }
      AscendingCons(ds, ix[0], rest);
    } else {
      AscendingCons(ds, j, ix);
    }
  }

  lemma GatherCons<T>(xs: seq<T>, x: nat, ix: seq<nat>)
    requires x < |xs| && InBounds(ix, |xs|)
    ensures InBounds([x] + ix, |xs|) && Gather(xs, [x] + ix) == [xs[x]] + Gather(xs, ix)
  {
  }

  lemma {:induction false} InsertGathers<T>(xs: seq<T>, ds: seq<real>, ix: seq<nat>, j: nat)
    requires |xs| == |ds| && j < |ds| && InBounds(ix, |ds|)
    ensures multiset(Gather(xs, Insert(ds, ix, j))) == multiset(Gather(xs, ix)) + multiset{xs[j]}
  {
    hide Gather;
    if ix == [] || ds[j] < ds[ix[0]] {
      GatherCons(xs, j, ix);
    } else {
      InsertGathers(xs, ds, ix[1..], j);
      GatherCons(xs, ix[0], Insert(ds, ix[1..], j));
      GatherCons(xs, ix[0], ix[1..]);
      assert [ix[0]] + ix[1..] == ix;
    }
  }

  lemma {:induction false} OrderAscends(ds: seq<real>, n: nat)
    requires n <= |ds|
    ensures Ascending(ds, Order(ds, n))
  {
    hide Insert;
    if n > 0 {
      OrderAscends(ds, n - 1);
      InsertAscends(ds, Order(ds, n - 1), n - 1);
    }
  }

  lemma {:induction false} OrderGathers<T>(xs: seq<T>, ds: seq<real>, n: nat)
    requires |xs| == |ds| && n <= |ds|
    ensures multiset(Gather(xs, Order(ds, n))) == multiset(xs[..n])
  {
    hide Insert, Gather;
    if n > 0 {
      OrderGathers(xs, ds, n - 1);
      InsertGathers(xs, ds, Order(ds, n - 1), n - 1);
      assert xs[..n] == xs[..n - 1] + [xs[n - 1]];
    }
  }

  // ---------- Rows of the result matrix ----------

  /** A row holds k distances, then the k labels that go with them. */
  function Pairs(row: seq<real>, k: nat): (ps: seq<Pair>)
    requires |row| == 2 * k
    ensures |ps| == k && forall i | 0 <= i < k :: ps[i] == Pair(row[i], row[k + i])
  {
    seq(k, i requires 0 <= i < k => Pair(row[i], row[k + i]))
  }

  predicate Rows(q: seq<seq<real>>, k: nat) {
    forall i | 0 <= i < |q| :: |q[i]| == 2 * k
  }

  function AllDists(q: seq<seq<real>>, k: nat): (ds: seq<real>)
    requires Rows(q, k)
    ensures |ds| == |q| * k
  {
    if q == [] then [] else q[0][..k] + AllDists(q[1..], k)
  }

  function AllLabels(q: seq<seq<real>>, k: nat): (ls: seq<real>)
    requires Rows(q, k)
    ensures |ls| == |q| * k
  {
    if q == [] then [] else q[0][k..] + AllLabels(q[1..], k)
  }

  ghost function AllPairs(q: seq<seq<real>>, k: nat): (ps: seq<Pair>)
    requires Rows(q, k)
  {
    if q == [] then [] else Pairs(q[0], k) + AllPairs(q[1..], k)
  }

  lemma {:induction false} AllPairsAt(q: seq<seq<real>>, k: nat)
    requires Rows(q, k)
    ensures |AllPairs(q, k)| == |q| * k == |AllDists(q, k)| == |AllLabels(q, k)|
    ensures forall i | 0 <= i < |AllPairs(q, k)| :: AllPairs(q, k)[i] == Pair(AllDists(q, k)[i], AllLabels(q, k)[i])
  {
    if q != [] {
      AllPairsAt(q[1..], k);
    }
  }

  /** `KNN_merge` on one test row: one input is returned as it is; of several, the pairs are put
      in order of distance and the first k kept, labels moving with their distances. */
  function MergeRow(q: seq<seq<real>>, k: nat): (r: seq<real>)
    requires Rows(q, k) && q != []
    ensures |r| == 2 * k
  {
    if |q| == 1 then q[0] else
    var ds := AllDists(q, k);
    var ix := Order(ds, |ds|)[..k];
    assert |q| * k >= k;
    Gather(ds, ix) + Gather(AllLabels(q, k), ix)
  }

  // ---------- A merge of k-nearest rows is a k-nearest row ----------

  ghost function SumSets(ms: seq<multiset<Pair>>): multiset<Pair> {
    if ms == [] then multiset{} else ms[0] + SumSets(ms[1..])
  }

  ghost predicate AllNearest(q: seq<seq<real>>, ms: seq<multiset<Pair>>, k: nat) {
    |q| == |ms| && forall i | 0 <= i < |q| :: |q[i]| == 2 * k && KNearest(Pairs(q[i], k), ms[i], k)
  }

  lemma SubsetOfSameSize(r: multiset<Pair>, s: multiset<Pair>)
    requires r <= s && |r| == |s|
    ensures r == s
  {
    assert s == r + (s - r);
    assert |s - r| == 0;
  }

  lemma SameSizeDiffers(r: multiset<Pair>, s: multiset<Pair>) returns (x: Pair)
    requires |r| == |s| && r != s
    ensures r[x] > s[x]
  {
    if r <= s { SubsetOfSameSize(r, s); }
    x :| r[x] > s[x];
  }

  /** If k candidates are within `d`, then so are the k nearest of the candidates. */
  lemma NearestWithin(best: seq<Pair>, c: multiset<Pair>, r: seq<Pair>, k: nat, d: real)
    requires KNearest(best, c, k) && |r| == k && multiset(r) <= c
    requires forall i | 0 <= i < |r| :: r[i].dist <= d
    ensures forall i | 0 <= i < |best| :: best[i].dist <= d
  {
    forall i | 0 <= i < |best|
      ensures best[i].dist <= d
    {
      if multiset(r) == multiset(best) {
        assert best[i] in multiset(r);
      } else {
        var x := SameSizeDiffers(multiset(r), multiset(best));
        assert x in multiset(r) && x in c - multiset(best);
      }
    }
  }

  lemma {:induction false} LeftOutSomewhere(q: seq<seq<real>>, ms: seq<multiset<Pair>>, k: nat, p: Pair)
    returns (i: nat)
    requires Rows(q, k) && |q| == |ms|
    requires SumSets(ms)[p] > multiset(AllPairs(q, k))[p]
    ensures i < |q| && ms[i][p] > multiset(Pairs(q[i], k))[p]
  {
    hide Pairs;
    if ms[0][p] > multiset(Pairs(q[0], k))[p] {
      return 0;
    }
    assert multiset(AllPairs(q, k)) == multiset(Pairs(q[0], k)) + multiset(AllPairs(q[1..], k));
    var j := LeftOutSomewhere(q[1..], ms[1..], k, p);
    i := j + 1;
  }

  lemma {:induction false} CandidatesAreMembers(q: seq<seq<real>>, ms: seq<multiset<Pair>>, k: nat)
    requires AllNearest(q, ms, k)
    ensures Rows(q, k) && multiset(AllPairs(q, k)) <= SumSets(ms)
    ensures forall i | 0 <= i < |q| :: multiset(Pairs(q[i], k)) <= multiset(AllPairs(q, k))
  {
    hide KNearest;
    if q != [] {
      assert KNearest(Pairs(q[0], k), ms[0], k);
      NearestIsMember(Pairs(q[0], k), ms[0], k);
      CandidatesAreMembers(q[1..], ms[1..], k);
      assert multiset(AllPairs(q, k)) == multiset(Pairs(q[0], k)) + multiset(AllPairs(q[1..], k));
    }
  }

  lemma NearestIsMember(row: seq<Pair>, all: multiset<Pair>, k: nat)
    requires KNearest(row, all, k)
    ensures multiset(row) <= all && |row| == k
  {
  }

  lemma GatherSplit(ps: seq<Pair>, ix: seq<nat>, k: nat)
    requires InBounds(ix, |ps|) && k <= |ix|
    ensures InBounds(ix[..k], |ps|) && InBounds(ix[k..], |ps|)
    ensures multiset(Gather(ps, ix)) == multiset(Gather(ps, ix[..k])) + multiset(Gather(ps, ix[k..]))
  {
    assert Gather(ps, ix) == Gather(ps, ix[..k]) + Gather(ps, ix[k..]);
  }

  lemma MergedPairs(q: seq<seq<real>>, k: nat)
    requires Rows(q, k) && |q| > 1
    ensures |AllPairs(q, k)| == |AllDists(q, k)| >= k
    ensures var ds := AllDists(q, k);
            Pairs(MergeRow(q, k), k) == Gather(AllPairs(q, k), Order(ds, |ds|)[..k])
  {
    hide Order;
    AllPairsAt(q, k);
    assert |q| * k >= k;
  }

  /** The first k of the candidates in order of distance are k nearest of the candidates. */
  lemma MergeRowSelects(q: seq<seq<real>>, k: nat)
    requires Rows(q, k) && |q| > 1
    ensures KNearest(Pairs(MergeRow(q, k), k), multiset(AllPairs(q, k)), k)
  {
    hide KNearest, MergeRow, AllPairs, AllDists, AllLabels, Order, Pairs, Ascending;
    var ds, ps := AllDists(q, k), AllPairs(q, k);
    AllPairsAt(q, k);
    MergedPairs(q, k);
    var ix := Order(ds, |ds|);
    OrderAscends(ds, |ds|);
    OrderGathers(ps, ds, |ds|);
    assert ps[..|ds|] == ps;
    GatherSplit(ps, ix, k);
    SortedSplit(ps, ds, ix, k);
  }

  lemma SortedSplit(ps: seq<Pair>, ds: seq<real>, ix: seq<nat>, k: nat)
    requires InBounds(ix, |ds|) && |ps| == |ds| && k <= |ix| && Ascending(ds, ix)
    requires forall i | 0 <= i < |ds| :: ps[i].dist == ds[i]
    requires multiset(ps) == multiset(Gather(ps, ix[..k])) + multiset(Gather(ps, ix[k..]))
    ensures KNearest(Gather(ps, ix[..k]), multiset(ps), k)
  {
    var best, rest := Gather(ps, ix[..k]), Gather(ps, ix[k..]);
    forall p, i | p in multiset(ps) - multiset(best) && 0 <= i < |best|
      ensures best[i].dist <= p.dist
    {
      assert p in multiset(rest);
      var j :| 0 <= j < |rest| && rest[j] == p;
      assert best[i].dist == ds[ix[i]] && rest[j].dist == ds[ix[k + j]];
    }
  }

  lemma MergeKeepsNearest(q: seq<seq<real>>, ms: seq<multiset<Pair>>, k: nat)
    requires AllNearest(q, ms, k) && q != []
    ensures Rows(q, k) && KNearest(Pairs(MergeRow(q, k), k), SumSets(ms), k)
  {
    hide KNearest, Pairs;
    CandidatesAreMembers(q, ms, k);
    if |q| == 1 {
      assert SumSets(ms[1..]) == multiset{};
      assert SumSets(ms) == ms[0];
    } else {
      MergeRowSelects(q, k);
      WiderNearest(q, ms, k, Pairs(MergeRow(q, k), k));
    }
  }

  /** What is nearest among the candidates is nearest among all that they were selected from. */
  lemma WiderNearest(q: seq<seq<real>>, ms: seq<multiset<Pair>>, k: nat, best: seq<Pair>)
    requires AllNearest(q, ms, k) && Rows(q, k) && KNearest(best, multiset(AllPairs(q, k)), k)
    requires multiset(AllPairs(q, k)) <= SumSets(ms)
    ensures KNearest(best, SumSets(ms), k)
  {
    hide AllNearest, Rows, AllPairs, SumSets;
    forall p, i | p in SumSets(ms) - multiset(best) && 0 <= i < |best|
      ensures best[i].dist <= p.dist
    {
      LeftOutIsFarther(q, ms, k, best, p);
    }
  }

  lemma LeftOutIsFarther(q: seq<seq<real>>, ms: seq<multiset<Pair>>, k: nat, best: seq<Pair>, p: Pair)
    requires AllNearest(q, ms, k) && Rows(q, k) && KNearest(best, multiset(AllPairs(q, k)), k)
    requires SumSets(ms)[p] > multiset(best)[p]
    ensures forall i | 0 <= i < |best| :: best[i].dist <= p.dist
  {
    var c := multiset(AllPairs(q, k));
    if c[p] > multiset(best)[p] {
      assert p in c - multiset(best);
    } else {
      CandidatesAreMembers(q, ms, k);
      var i := LeftOutSomewhere(q, ms, k, p);
      assert p in ms[i] - multiset(Pairs(q[i], k));
      NearestWithin(best, c, Pairs(q[i], k), k, p.dist);
    }
  }

  // ---------- Through the whole reduction ----------

  /** `MergeRow` as a total function of the queue, for rows of 2k entries. */
  function Merger(k: nat): seq<seq<real>> -> seq<real> {
    q => if q != [] && Rows(q, k) then MergeRow(q, k) else []
  }

  lemma {:induction false} SumSetsConcat(a: seq<multiset<Pair>>, b: seq<multiset<Pair>>)
    ensures SumSets(a + b) == SumSets(a) + SumSets(b)
  {
    if a == [] {
      assert a + b == b;
    } else {
      assert (a + b)[0] == a[0] && (a + b)[1..] == a[1..] + b;
      SumSetsConcat(a[1..], b);
    }
  }

  lemma SumOfOne(m: multiset<Pair>)
    ensures SumSets([m]) == m
  {
    assert [m][1..] == [];
  }

  lemma TurnKeepsNearest(q: seq<seq<real>>, ms: seq<multiset<Pair>>, arity: nat, k: nat)
    returns (ms': seq<multiset<Pair>>)
    requires AllNearest(q, ms, k) && 0 < arity < |q|
    ensures AllNearest(Turn(q, arity, Merger(k)), ms', k) && SumSets(ms') == SumSets(ms)
  {
    hide KNearest, MergeRow, Pairs, SumSets;
    MergeKeepsNearest(q[..arity], ms[..arity], k);
    assert q[..arity] != [] && Rows(q[..arity], k);
    ms' := ms[arity..] + [SumSets(ms[..arity])];
    SumSetsConcat(ms[arity..], [SumSets(ms[..arity])]);
    SumSetsConcat(ms[..arity], ms[arity..]);
    assert ms == ms[..arity] + ms[arity..];
    SumOfOne(SumSets(ms[..arity]));
  }

  /** Whatever the arity, the reduced row is a k-nearest row of everything the inputs stood for. */
  lemma {:induction false} TotalIsNearest(q: seq<seq<real>>, ms: seq<multiset<Pair>>, arity: nat, k: nat)
    requires AllNearest(q, ms, k) && q != [] && arity >= 2
    ensures var r := Total(q, arity, Merger(k));
            |r| == 2 * k && KNearest(Pairs(r, k), SumSets(ms), k)
    decreases |q|
  {
    hide KNearest, MergeRow;
    if |q| <= arity {
      MergeKeepsNearest(q, ms, k);
      assert Rows(q, k);
    } else {
      var ms' := TurnKeepsNearest(q, ms, arity, k);
      TotalIsNearest(Turn(q, arity, Merger(k)), ms', arity, k);
    }
  }

  // ---------- The distances selected do not depend on the way they were selected ----------

  lemma SubsetSize(r: multiset<Pair>, s: multiset<Pair>)
    requires r <= s
    ensures |r| <= |s|
  {
    assert s == r + (s - r);
  }

  lemma NearAreFirst(near: multiset<Pair>, b: seq<Pair>, i: nat, d: real)
    requires near <= multiset(b) && i < |b| && d < b[i].dist
    requires forall m, n | 0 <= m < n < |b| :: b[m].dist <= b[n].dist
    requires forall x: Pair <- near :: x.dist <= d
    ensures near <= multiset(b[..i])
  {
    var first, rest := multiset(b[..i]), multiset(b[i..]);
    assert b == b[..i] + b[i..];
    assert multiset(b) == first + rest;
    TailIsFarther(b, i, d);
    assert forall x: Pair <- near :: x !in rest;
  }

  lemma TailIsFarther(b: seq<Pair>, i: nat, d: real)
    requires i < |b| && d < b[i].dist
    requires forall m, n | 0 <= m < n < |b| :: b[m].dist <= b[n].dist
    ensures forall y: Pair <- multiset(b[i..]) :: y.dist > d
  {
    forall y: Pair | y in multiset(b[i..])
      ensures y.dist > d
    {
      var j :| 0 <= j < |b[i..]| && b[i..][j] == y;
    }
  }

  /** If a row in order of distance has more than `i` pairs within `d`, its `i`-th is within `d`. */
  lemma WithinCount(near: multiset<Pair>, b: seq<Pair>, i: nat, d: real)
    requires near <= multiset(b) && i < |b| && |near| > i
    requires forall m, n | 0 <= m < n < |b| :: b[m].dist <= b[n].dist
    requires forall x: Pair <- near :: x.dist <= d
    ensures b[i].dist <= d
  {
    if b[i].dist > d {
      NearAreFirst(near, b, i, d);
      SubsetSize(near, multiset(b[..i]));
      assert false;
    }
  }

  lemma FrontIsNear(a: seq<Pair>, i: nat) returns (near: multiset<Pair>)
    requires i < |a| && forall m, n | 0 <= m < n < |a| :: a[m].dist <= a[n].dist
    ensures near <= multiset(a) && |near| == i + 1
    ensures forall x: Pair <- near :: x.dist <= a[i].dist
  {
    var front := a[..i + 1];
    near := multiset(front);
    assert a == front + a[i + 1..];
    forall x: Pair <- near
      ensures x.dist <= a[i].dist
    {
      var j :| 0 <= j < |front| && front[j] == x;
      assert a[j] == x;
    }
  }

  lemma NoNearer(a: seq<Pair>, b: seq<Pair>, all: multiset<Pair>, k: nat, i: nat)
    requires KNearest(a, all, k) && KNearest(b, all, k) && i < k
    ensures b[i].dist <= a[i].dist
  {
    var near := FrontIsNear(a, i);
    if near <= multiset(b) {
      WithinCount(near, b, i, a[i].dist);
    } else {
      var x :| near[x] > multiset(b)[x];
      assert x in near && x in all - multiset(b);
    }
  }

  lemma SameDistances(a: seq<Pair>, b: seq<Pair>, all: multiset<Pair>, k: nat)
    requires KNearest(a, all, k) && KNearest(b, all, k)
    ensures |a| == |b| == k && forall i | 0 <= i < k :: a[i].dist == b[i].dist
  {
    forall i | 0 <= i < k
      ensures a[i].dist == b[i].dist
    {
      NoNearer(a, b, all, k, i);
      NoNearer(b, a, all, k, i);
    }
  }

  // ---------- The most frequent label ----------

  /** How often a value occurs. */
  function Count<T(==, !new)>(xs: seq<T>, x: T): (n: nat)
    ensures n == multiset(xs)[x]
  {
    assert xs != [] ==> xs == [xs[0]] + xs[1..];
    if xs == [] then 0 else (if xs[0] == x then 1 else 0) + Count(xs[1..], x)
  }

  /** `unique`: the distinct values in order of first appearance. */
  function Unique<T(==, !new)>(xs: seq<T>): (ux: seq<T>)
    ensures forall x :: x in ux <==> x in xs
    ensures forall i, j | 0 <= i < j < |ux| :: ux[i] != ux[j]
  {
    if xs == [] then [] else
    var before := Unique(xs[..|xs| - 1]);
    var last := xs[|xs| - 1];
    assert xs == xs[..|xs| - 1] + [last];
    if last in before then before else before + [last]
  }

  function WhichMax(ns: seq<nat>): (k: nat)
    requires ns != []
    ensures k < |ns|
    ensures forall j | 0 <= j < |ns| :: ns[j] <= ns[k]
    ensures forall j | 0 <= j < k :: ns[j] < ns[k]
  {
    if |ns| == 1 then 0 else
    var k := WhichMax(ns[1..]);
    assert forall j | 1 <= j < |ns| :: ns[j] == ns[1..][j - 1];
    if ns[k + 1] <= ns[0] then 0 else k + 1
  }

  function Tabulate<T(==, !new)>(xs: seq<T>, ux: seq<T>): (ns: seq<nat>)
    ensures |ns| == |ux| && forall i | 0 <= i < |ux| :: ns[i] == multiset(xs)[ux[i]]
  {
    seq(|ux|, i requires 0 <= i < |ux| => Count(xs, ux[i]))
  }

  /** `KNN_get_mode`: a most frequent label, and of several the one that appears first. */
  function Mode<T(==, !new)>(xs: seq<T>): (m: T)
    requires xs != []
    ensures m in xs
    ensures forall x :: multiset(xs)[x] <= multiset(xs)[m]
  {
    var ux := Unique(xs);
    assert xs[0] in ux;
    var k := WhichMax(Tabulate(xs, ux));
    assert ux[k] in ux;
    assert forall x | x in xs :: x in ux;
    assert forall x :: x !in xs ==> multiset(xs)[x] == 0;
    ux[k]
  }

  function FirstAt<T(==, !new)>(xs: seq<T>, x: T): (i: nat)
    requires x in xs
    ensures i < |xs| && xs[i] == x && x !in xs[..i]
  {
    if xs[0] == x then 0 else
    var i := 1 + FirstAt(xs[1..], x);
    assert xs[..i] == [xs[0]] + xs[1..][..i - 1];
    i
  }

  lemma {:induction false} FirstAtExtended<T(!new)>(xs: seq<T>, y: T, x: T)
    requires x in xs
    ensures FirstAt(xs + [y], x) == FirstAt(xs, x)
  {
    if xs[0] != x {
      assert (xs + [y])[1..] == xs[1..] + [y];
      FirstAtExtended(xs[1..], y, x);
    }
  }

  lemma {:induction false} FirstAtEnd<T(!new)>(xs: seq<T>, y: T)
    requires y !in xs
    ensures FirstAt(xs + [y], y) == |xs|
  {
    if xs != [] {
      assert (xs + [y])[1..] == xs[1..] + [y];
      FirstAtEnd(xs[1..], y);
    }
  }

  ghost predicate InOrder<T(!new)>(ux: seq<T>, xs: seq<T>) {
    && (forall i | 0 <= i < |ux| :: ux[i] in xs)
    && (forall i, j | 0 <= i < j < |ux| :: FirstAt(xs, ux[i]) < FirstAt(xs, ux[j]))
  }

  lemma InOrderExtended<T(!new)>(ux: seq<T>, xs: seq<T>, y: T)
    requires InOrder(ux, xs)
    ensures InOrder(ux, xs + [y])
    ensures y !in xs ==> InOrder(ux + [y], xs + [y])
  {
    hide FirstAt;
    forall i | 0 <= i < |ux|
      ensures ux[i] in xs + [y] && FirstAt(xs + [y], ux[i]) == FirstAt(xs, ux[i])
    {
      FirstAtExtended(xs, y, ux[i]);
    }
    if y !in xs { FirstAtEnd(xs, y); }
  }

  lemma {:induction false} UniqueInOrder<T(!new)>(xs: seq<T>)
    ensures InOrder(Unique(xs), xs)
  {
    if xs != [] {
      var front, last := xs[..|xs| - 1], xs[|xs| - 1];
      UniqueInOrder(front);
      assert xs == front + [last];
      InOrderExtended(Unique(front), front, last);
    }
  }

  lemma ModePosition<T(!new)>(xs: seq<T>) returns (k: nat)
    requires xs != []
    ensures k < |Unique(xs)| && Mode(xs) == Unique(xs)[k]
    ensures forall j | 0 <= j < k :: multiset(xs)[Unique(xs)[j]] < multiset(xs)[Mode(xs)]
  {
    var ns := Tabulate(xs, Unique(xs));
    assert xs[0] in Unique(xs);
    k := WhichMax(ns);
    forall j | 0 <= j < k
      ensures multiset(xs)[Unique(xs)[j]] < multiset(xs)[Mode(xs)]
    {
      assert ns[j] < ns[k];
    }
  }

  /** Among equally frequent labels the mode is the one met first. */
  lemma ModeIsFirst<T(!new)>(xs: seq<T>, x: T)
    requires x in xs && multiset(xs)[x] == multiset(xs)[Mode(xs)]
    ensures FirstAt(xs, Mode(xs)) <= FirstAt(xs, x)
  {
    hide FirstAt, Unique, Count, Mode;
    UniqueInOrder(xs);
    var k := ModePosition(xs);
    assert x in Unique(xs);
    var j :| 0 <= j < |Unique(xs)| && Unique(xs)[j] == x;
  }

  /** No label occurs more often than `m`, and none that occurs as often is met earlier. */
  ghost predicate MostFrequent<T(!new)>(m: T, xs: seq<T>) {
    && m in xs
    && (forall x :: multiset(xs)[x] <= multiset(xs)[m])
    && (forall x | x in xs && multiset(xs)[x] == multiset(xs)[m] :: FirstAt(xs, m) <= FirstAt(xs, x))
  }

  /** That label is the mode, and no other one is. */
  lemma ModeIff<T(!new)>(xs: seq<T>, m: T)
    requires xs != []
    ensures MostFrequent(m, xs) <==> m == Mode(xs)
  {
    hide Mode, FirstAt;
    forall x | x in xs && multiset(xs)[x] == multiset(xs)[Mode(xs)]
      ensures FirstAt(xs, Mode(xs)) <= FirstAt(xs, x)
    {
      ModeIsFirst(xs, x);
    }
    if MostFrequent(m, xs) {
      assert multiset(xs)[m] == multiset(xs)[Mode(xs)];
      assert FirstAt(xs, m) == FirstAt(xs, Mode(xs));
    }
  }

  // ---------- Ties keep their order ----------

  /** Of two positions with one distance, the earlier comes first. */
  ghost predicate Stable(ds: seq<real>, ix: seq<nat>)
    requires InBounds(ix, |ds|)
  {
    forall i, j | 0 <= i < j < |ix| && ds[ix[i]] == ds[ix[j]] :: ix[i] < ix[j]
  }

  lemma {:induction false} InsertIsStable(ds: seq<real>, ix: seq<nat>, j: nat)
    requires j < |ds| && InBounds(ix, |ds|) && Ascending(ds, ix) && Stable(ds, ix) && forall x <- ix :: x < j
    ensures Stable(ds, Insert(ds, ix, j)) && forall x <- Insert(ds, ix, j) :: x <= j
  {
    InsertAscends(ds, ix, j);
    if ix != [] && ds[j] >= ds[ix[0]] {
      assert forall m | 0 <= m < |ix[1..]| :: ix[1..][m] == ix[m + 1];
      assert forall x <- ix[1..] :: x in ix;
      InsertAscends(ds, ix[1..], j);
      InsertIsStable(ds, ix[1..], j);
      var rest := Insert(ds, ix[1..], j);
      assert Insert(ds, ix, j) == [ix[0]] + rest;
      forall n | 0 <= n < |rest| && ds[ix[0]] == ds[rest[n]]
        ensures ix[0] < rest[n]
      {
        assert rest[n] in rest;
        if rest[n] != j {
          var m :| 0 <= m < |ix[1..]| && ix[1..][m] == rest[n];
          assert ix[0] < ix[m + 1];
        } else {
          assert ix[0] in ix;
        }
      }
    } else if ix != [] {
      assert forall m | 0 <= m < |ix| :: ds[ix[0]] <= ds[ix[m]];
    }
  }

  /** The sort is stable. */
  lemma {:induction false} OrderIsStable(ds: seq<real>, n: nat)
    requires n <= |ds|
    ensures Stable(ds, Order(ds, n)) && forall x <- Order(ds, n) :: x < n
  {
    hide Insert;
    if n > 0 {
      OrderIsStable(ds, n - 1);
      OrderAscends(ds, n - 1);
      InsertIsStable(ds, Order(ds, n - 1), n - 1);
    }
  }
}
