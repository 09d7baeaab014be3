/** The first-in-first-out reduction loop shared by the k-means, KNN and regression programs:
    while more than `arity` partials are queued, merge the first `arity` and queue the result. */
module TreeReduction {

  /** One turn of the loop. */
  function Turn<T>(q: seq<T>, arity: nat, merge: seq<T> -> T): seq<T>
    requires arity <= |q|
  {
    q[arity..] + [merge(q[..arity])]
  }

  /** The queue when the loop stops. */
  function Reduce<T>(q: seq<T>, arity: nat, merge: seq<T> -> T): (r: seq<T>)
    requires arity >= 2
    ensures |r| <= arity && (q != [] ==> r != [])
    decreases |q|
  {
    if |q| <= arity then q else Reduce(Turn(q, arity, merge), arity, merge)
  }

  /** The whole reduction: the loop, then one merge of what is left. */
  function Total<T>(q: seq<T>, arity: nat, merge: seq<T> -> T): T
    requires arity >= 2
  {
    merge(Reduce(q, arity, merge))
  }

  /** The number of turns the loop makes. */
  function Turns(n: nat, arity: nat): nat
    requires arity >= 2
    decreases n
  {
    if n <= arity then 0 else 1 + Turns(n - arity + 1, arity)
  }

  /** Turn counting in closed form: the ceiling of (n - arity) / (arity - 1). */
  lemma {:induction false} TurnsClosedForm(n: nat, arity: nat)
    requires arity >= 2
    ensures n <= arity ==> Turns(n, arity) == 0
    ensures n > arity ==>
              var t := Turns(n, arity);
              (t - 1) * (arity - 1) < n - arity <= t * (arity - 1)
    decreases n
  {
    if n > arity {
      var t := Turns(n - arity + 1, arity);
      TurnsClosedForm(n - arity + 1, arity);
      assert (t + 1) * (arity - 1) == t * (arity - 1) + (arity - 1);
      if n - arity + 1 > arity {
        assert t * (arity - 1) == (t - 1) * (arity - 1) + (arity - 1);
      }
    }
  }

  /** The queue after k turns, or when the loop has stopped before. */
  function After<T>(q: seq<T>, arity: nat, merge: seq<T> -> T, k: nat): seq<T>
    requires arity >= 2
    decreases k
  {
    if k == 0 || |q| <= arity then q else After(Turn(q, arity, merge), arity, merge, k - 1)
  }

  /** The loop is still going after fewer than that many turns, and stops after exactly so many. */
  lemma {:induction false} LoopTurns<T>(q: seq<T>, arity: nat, merge: seq<T> -> T, k: nat)
    requires arity >= 2 && k <= Turns(|q|, arity)
    ensures k < Turns(|q|, arity) <==> |After(q, arity, merge, k)| > arity
    ensures k == Turns(|q|, arity) ==> After(q, arity, merge, k) == Reduce(q, arity, merge)
    decreases k
  {
    if k > 0 { LoopTurns(Turn(q, arity, merge), arity, merge, k - 1); }
  }

  /** With arity 1 a turn only rotates the queue, so a loop that starts never stops. */
  function ArityOneTurns<T>(q: seq<T>, merge: seq<T> -> T, k: nat): seq<T>
    requires |q| >= 1
    decreases k
  {
    if k == 0 then q else
    var q' := Turn(q, 1, merge);
    ArityOneTurns(q', merge, k - 1)
  }

  lemma {:induction false} ArityOneNeverStops<T>(q: seq<T>, merge: seq<T> -> T, k: nat)
    requires |q| > 1
    ensures |ArityOneTurns(q, merge, k)| == |q| > 1
    decreases k
  {
    if k > 0 {
      ArityOneNeverStops(Turn(q, 1, merge), merge, k - 1);
    }
  }

  // ---------- Which inputs a queue entry stands for ----------

  /** The merges done so far for one entry; a leaf is an input. */
  datatype Tree<T> = Leaf(x: T) | Node(ts: seq<Tree<T>>)

  function Leaves<T>(t: Tree<T>): seq<T>
    decreases t, 0
  {
    match t
    case Leaf(x) => [x]
    case Node(ts) => AllLeaves(ts)
  }

  function AllLeaves<T>(ts: seq<Tree<T>>): seq<T>
    decreases ts, 1
  {
    if ts == [] then [] else Leaves(ts[0]) + AllLeaves(ts[1..])
  }

  function Eval<T>(t: Tree<T>, merge: seq<T> -> T): T
    decreases t, 0
  {
    match t
    case Leaf(x) => x
    case Node(ts) => merge(EvalAll(ts, merge))
  }

  function EvalAll<T>(ts: seq<Tree<T>>, merge: seq<T> -> T): (r: seq<T>)
    ensures |r| == |ts|
    decreases ts, 1
  {
    if ts == [] then [] else [Eval(ts[0], merge)] + EvalAll(ts[1..], merge)
  }

  function AsLeaves<T>(q: seq<T>): (ts: seq<Tree<T>>)
    ensures |ts| == |q|
  {
    if q == [] then [] else [Leaf(q[0])] + AsLeaves(q[1..])
  }

  /** `s` is `r` turned by `k` places. */
  ghost predicate Rotation<T>(s: seq<T>, r: seq<T>, k: nat) {
    k <= |r| && s == r[k..] + r[..k]
  }

  lemma {:induction false} AllLeavesConcat<T>(ts: seq<Tree<T>>, us: seq<Tree<T>>)
    ensures AllLeaves(ts + us) == AllLeaves(ts) + AllLeaves(us)
  {
    if ts == [] {
      assert ts + us == us;
    } else {
      assert (ts + us)[0] == ts[0] && (ts + us)[1..] == ts[1..] + us;
      AllLeavesConcat(ts[1..], us);
    }
  }

  lemma {:induction false} EvalAllConcat<T>(ts: seq<Tree<T>>, us: seq<Tree<T>>, merge: seq<T> -> T)
    ensures EvalAll(ts + us, merge) == EvalAll(ts, merge) + EvalAll(us, merge)
  {
    if ts == [] {
      assert ts + us == us;
    } else {
      assert (ts + us)[0] == ts[0] && (ts + us)[1..] == ts[1..] + us;
      EvalAllConcat(ts[1..], us, merge);
    }
  }

  lemma {:induction false} InputsAsLeaves<T>(q: seq<T>, merge: seq<T> -> T)
    ensures AllLeaves(AsLeaves(q)) == q && EvalAll(AsLeaves(q), merge) == q
  {
    if q != [] {
      InputsAsLeaves(q[1..], merge);
    }
  }

  lemma SameParts<T>(a: seq<T>, b: seq<T>, c: seq<T>, d: seq<T>)
    requires a + b == c + d && |a| == |c|
    ensures a == c && b == d
  {
    assert (a + b)[..|a|] == a && (c + d)[..|a|] == c && (a + b)[|a|..] == b && (c + d)[|a|..] == d;
  }

  /** Moving the front of a rotation to its back gives a rotation. */
  lemma RotateOn<T>(a: seq<T>, b: seq<T>, r: seq<T>, k: nat) returns (k': nat)
    requires Rotation(a + b, r, k)
    ensures Rotation(b + a, r, k')
  {
    if k + |a| <= |r| {
      k' := k + |a|;
      var p, m, n := r[..k], r[k..k'], r[k'..];
      assert r[k..] == m + n && r[..k'] == p + m;
      assert a + b == m + (n + p);
      SameParts(a, b, m, n + p);
      assert (n + p) + m == n + (p + m);
    } else {
      k' := k + |a| - |r|;
      var p, m, n := r[..k'], r[k'..k], r[k..];
      assert r[..k] == p + m && r[k'..] == m + n;
      assert a + b == (n + p) + m;
      SameParts(a, b, n + p, m);
      assert m + (n + p) == (m + n) + p;
    }
  }

  /** One turn on a queue of trees: the merged entries become one node at the back. */
  lemma TurnOfTrees<T>(ts: seq<Tree<T>>, inputs: seq<T>, arity: nat, merge: seq<T> -> T, k: nat)
    returns (ts': seq<Tree<T>>, k': nat)
    requires arity <= |ts| && Rotation(AllLeaves(ts), inputs, k)
    ensures ts' == ts[arity..] + [Node(ts[..arity])]
    ensures Rotation(AllLeaves(ts'), inputs, k')
    ensures Turn(EvalAll(ts, merge), arity, merge) == EvalAll(ts', merge)
  {
    var us, vs := ts[..arity], ts[arity..];
    assert ts == us + vs;
    AllLeavesConcat(us, vs);
    k' := RotateOn(AllLeaves(us), AllLeaves(vs), inputs, k);
    ts' := vs + [Node(us)];
    AllLeavesConcat(vs, [Node(us)]);
    assert AllLeaves([Node(us)]) == AllLeaves(us);
    EvalAllConcat(us, vs, merge);
    EvalAllConcat(vs, [Node(us)], merge);
    var q := EvalAll(ts, merge);
    assert q[..arity] == EvalAll(us, merge) && q[arity..] == EvalAll(vs, merge);
  }

  /** Whatever the queue holds, its leaves read left to right stay a rotation of the inputs. */
  lemma {:induction false} ReduceTracksTrees<T>(ts: seq<Tree<T>>, inputs: seq<T>, arity: nat,
                                                merge: seq<T> -> T, k: nat)
    returns (rs: seq<Tree<T>>, k': nat)
    requires arity >= 2 && Rotation(AllLeaves(ts), inputs, k)
    ensures Rotation(AllLeaves(rs), inputs, k')
    ensures Reduce(EvalAll(ts, merge), arity, merge) == EvalAll(rs, merge)
    decreases |ts|
  {
    if |ts| <= arity {
      return ts, k;
    }
    var ts', k1 := TurnOfTrees(ts, inputs, arity, merge, k);
    rs, k' := ReduceTracksTrees(ts', inputs, arity, merge, k1);
  }

  lemma NoRotation<T>(q: seq<T>)
    ensures Rotation(q, q, 0)
  {
    assert q[0..] + q[..0] == q;
  }

  lemma RotationPermutes<T>(s: seq<T>, r: seq<T>, k: nat)
    requires Rotation(s, r, k)
    ensures multiset(s) == multiset(r)
  {
    assert r == r[..k] + r[k..];
  }

  /** The result is a tree of merges in which every input occurs exactly once, in rotated order. */
  lemma TotalIsTreeOverRotation<T>(q: seq<T>, arity: nat, merge: seq<T> -> T) returns (t: Tree<T>, k: nat)
    requires arity >= 2
    ensures t.Node? && Total(q, arity, merge) == Eval(t, merge)
    ensures Rotation(Leaves(t), q, k) && multiset(Leaves(t)) == multiset(q)
  {
    hide Reduce, AsLeaves, AllLeaves, EvalAll, Rotation;
    InputsAsLeaves(q, merge);
    NoRotation(q);
    var rs, k' := ReduceTracksTrees(AsLeaves(q), q, arity, merge, 0);
    t, k := Node(rs), k';
    RotationPermutes(Leaves(t), q, k);
  }

  // ---------- Merging that is a sum ----------

  /** A binary operation, folded from the left as the `merge` tasks fold it. */
  function FoldFrom<T>(acc: T, xs: seq<T>, op: (T, T) -> T): T
    decreases xs
  {
    if xs == [] then acc else FoldFrom(op(acc, xs[0]), xs[1..], op)
  }

  ghost predicate CommutativeSemigroup<T(!new)>(op: (T, T) -> T, has: T -> bool) {
    && (forall a, b :: has(a) && has(b) ==> has(op(a, b)) && op(a, b) == op(b, a))
    && (forall a, b, c :: has(a) && has(b) && has(c) ==> op(op(a, b), c) == op(a, op(b, c)))
  }

  /** `merge` on one or more elements of the carrier is the left fold of `op`. */
  ghost predicate Folds<T(!new)>(merge: seq<T> -> T, op: (T, T) -> T) {
    forall xs: seq<T> :: xs != [] ==> merge(xs) == FoldFrom(xs[0], xs[1..], op)
  }

  ghost predicate Within<T>(xs: seq<T>, has: T -> bool) {
    forall i | 0 <= i < |xs| :: has(xs[i])
  }

  lemma {:induction false} FoldStays<T(!new)>(acc: T, xs: seq<T>, op: (T, T) -> T, has: T -> bool)
    requires CommutativeSemigroup(op, has) && has(acc) && Within(xs, has)
    ensures has(FoldFrom(acc, xs, op))
    decreases xs
  {
    if xs != [] {
      FoldStays(op(acc, xs[0]), xs[1..], op, has);
    }
  }

  lemma {:induction false} FoldShift<T(!new)>(a: T, b: T, xs: seq<T>, op: (T, T) -> T, has: T -> bool)
    requires CommutativeSemigroup(op, has) && has(a) && has(b) && Within(xs, has)
    ensures FoldFrom(op(a, b), xs, op) == op(a, FoldFrom(b, xs, op))
    decreases xs
  {
    if xs != [] {
      FoldShift(a, op(b, xs[0]), xs[1..], op, has);
      assert op(op(a, b), xs[0]) == op(a, op(b, xs[0]));
    }
  }

  lemma {:induction false} FoldConcat<T(!new)>(acc: T, xs: seq<T>, ys: seq<T>, op: (T, T) -> T)
    ensures FoldFrom(acc, xs + ys, op) == FoldFrom(FoldFrom(acc, xs, op), ys, op)
    decreases xs
  {
    if xs == [] {
      assert xs + ys == ys;
    } else {
      assert (xs + ys)[0] == xs[0] && (xs + ys)[1..] == xs[1..] + ys;
      FoldConcat(op(acc, xs[0]), xs[1..], ys, op);
    }
  }

  function Fold<T>(xs: seq<T>, op: (T, T) -> T): T
    requires xs != []
  {
    FoldFrom(xs[0], xs[1..], op)
  }

  lemma FoldSplit<T(!new)>(xs: seq<T>, ys: seq<T>, op: (T, T) -> T, has: T -> bool)
    requires CommutativeSemigroup(op, has) && Within(xs, has) && Within(ys, has) && xs != [] && ys != []
    ensures has(Fold(xs, op)) && has(Fold(ys, op))
    ensures Fold(xs + ys, op) == op(Fold(xs, op), Fold(ys, op))
  {
    hide CommutativeSemigroup;
    FoldStays(xs[0], xs[1..], op, has);
    FoldStays(ys[0], ys[1..], op, has);
    assert (xs + ys)[0] == xs[0] && (xs + ys)[1..] == xs[1..] + ys;
    FoldConcat(xs[0], xs[1..], ys, op);
    FoldShift(Fold(xs, op), ys[0], ys[1..], op, has);
  }

  /** For a commutative and associative merge, the queue's fold never changes. */
  lemma TurnKeepsFold<T(!new)>(q: seq<T>, arity: nat, merge: seq<T> -> T, op: (T, T) -> T, has: T -> bool)
    requires CommutativeSemigroup(op, has) && Folds(merge, op) && Within(q, has) && 0 < arity < |q|
    ensures Within(Turn(q, arity, merge), has) && Fold(Turn(q, arity, merge), op) == Fold(q, op)
  {
    var us, vs := q[..arity], q[arity..];
    assert q == us + vs;
    FoldSplit(us, vs, op, has);
    assert merge(us) == Fold(us, op);
    FoldSplit(vs, [merge(us)], op, has);
  }

  /** So the whole reduction is the plain fold of the inputs, whatever the arity. */
  lemma {:induction false} TotalIsFold<T(!new)>(q: seq<T>, arity: nat, merge: seq<T> -> T, op: (T, T) -> T,
                                                has: T -> bool)
    requires CommutativeSemigroup(op, has) && Folds(merge, op) && Within(q, has) && q != [] && arity >= 2
    ensures has(Fold(q, op)) && Total(q, arity, merge) == Fold(q, op)
    decreases |q|
  {
    if |q| <= arity {
      FoldStays(q[0], q[1..], op, has);
    } else {
      TurnKeepsFold(q, arity, merge, op, has);
      TotalIsFold(Turn(q, arity, merge), arity, merge, op, has);
    }
  }
}
