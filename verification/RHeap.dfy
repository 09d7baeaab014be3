/** R's heap with its PROTECT stack, under a collector that runs at every allocation and
    reclaims everything it may. A reclaimed reference is never handed out again, so an access
    through one is an access to a reference that is not in the heap. */
module RHeap {
  import opened Bytes
  import opened RValues

  type Ref = nat
  // The objects R itself keeps alive.
  const NIL: Ref := 0
  const NA_STRING: Ref := 1
  const BLANK_STRING: Ref := 2
  const FIRST: Ref := 3

  datatype Body =
    | LogicalBody(ints: seq<I32>)
    | IntegerBody(ints: seq<I32>)
    | RealBody(reals: seq<Double>)
    | StringBody(refs: seq<Ref>)
    | ListBody(refs: seq<Ref>)
  {
    function Length(): nat {
      match this
      case LogicalBody(xs) => |xs|
      case IntegerBody(xs) => |xs|
      case RealBody(xs) => |xs|
      case StringBody(rs) => |rs|
      case ListBody(rs) => |rs|
    }

    function Refs(): set<Ref> {
      if StringBody? || ListBody? then (set r | r in refs) else {}
    }
  }

  datatype Cell =
    | CharCell(chars: Chars)
    | VectorCell(body: Body, names: Ref, dim: Ref, dimnames: Ref)
  {
    function Kids(): set<Ref> {
      if CharCell? then {} else body.Refs() + {names, dim, dimnames}
    }
  }

  type Cells = map<Ref, Cell>

  predicate Live(h: Cells, r: Ref) {
    r < FIRST || r in h
  }

  ghost predicate Closed(h: Cells) {
    forall r, k :: r in h && k in h[r].Kids() ==> Live(h, k)
  }

  /** A set of references that a collection with these roots must not cut into. */
  ghost predicate Retains(h: Cells, roots: seq<Ref>, keep: set<Ref>) {
    && (forall r :: r in roots && r in h ==> r in keep)
    && (forall r, k :: r in keep && r in h && k in h[r].Kids() && k in h ==> k in keep)
  }

  /** Between two moments, cells older than `next` that are still there have not changed. */
  ghost predicate Evolves(h: Cells, next: Ref, h': Cells, next': Ref) {
    && next <= next'
    && (forall r :: r in h' && r < next ==> r in h && h'[r] == h[r])
  }

  /** The value that the object graph at `r` stands for. All its cells lie in `lo..hi`: what a
      vector holds was allocated after it, the dim and dimnames attached to it before it. */
  ghost predicate Denotes(h: Cells, lo: Ref, hi: Ref, r: Ref, v: SEXP)
    decreases v, 2
  {
    match v
    case Null => r == NIL
    case Obj(data, names, dim, dimnames, other) =>
      && lo <= r < hi && FIRST <= r && r in h && h[r].VectorCell?
      && other == []
      && DenotesData(h, r + 1, hi, h[r].body, data)
      && Denotes(h, r + 1, hi, h[r].names, names)
      && Denotes(h, lo, r, h[r].dim, dim)
      && Denotes(h, lo, r, h[r].dimnames, dimnames)
  }

  ghost predicate DenotesData(h: Cells, lo: Ref, hi: Ref, body: Body, data: Data)
    decreases data, 1
  {
    match data
    case Logicals(xs) => body == LogicalBody(xs)
    case Integers(xs) => body == IntegerBody(xs)
    case Reals(xs) => body == RealBody(xs)
    case Strings(ss) => body.StringBody? && DenotesStrings(h, lo, hi, body.refs, ss)
    case List(es) =>
      body.ListBody? && |body.refs| == |es| &&
      forall i | 0 <= i < |es| :: Denotes(h, lo, hi, body.refs[i], es[i])
    case Foreign(_) => false
  }

  ghost predicate DenotesString(h: Cells, lo: Ref, hi: Ref, r: Ref, s: RString) {
    match s
    case NaString => r == NA_STRING
    case Str(cs) => lo <= r < hi && FIRST <= r && r in h && h[r] == CharCell(cs)
  }

  ghost predicate DenotesStrings(h: Cells, lo: Ref, hi: Ref, refs: seq<Ref>, ss: seq<RString>) {
    |refs| == |ss| && forall i | 0 <= i < |ss| :: DenotesString(h, lo, hi, refs[i], ss[i])
  }

  /** An object stands for one value at most. */
  lemma {:induction false} DenotesOneValue(h: Cells, lo: Ref, hi: Ref, lo': Ref, hi': Ref, r: Ref, v: SEXP, v': SEXP)
    requires Denotes(h, lo, hi, r, v) && Denotes(h, lo', hi', r, v')
    ensures v == v'
    decreases v, 1
  {
    if v.Obj? && v'.Obj? {
      var cell := h[r];
      DenotesOneVector(h, r + 1, hi, r + 1, hi', cell.body, v.data, v'.data);
      DenotesOneValue(h, r + 1, hi, r + 1, hi', cell.names, v.names, v'.names);
      DenotesOneValue(h, lo, r, lo', r, cell.dim, v.dim, v'.dim);
      DenotesOneValue(h, lo, r, lo', r, cell.dimnames, v.dimnames, v'.dimnames);
    }
  }

  lemma {:induction false} DenotesOneVector(h: Cells, lo: Ref, hi: Ref, lo': Ref, hi': Ref, body: Body,
                                            data: Data, data': Data)
    requires DenotesData(h, lo, hi, body, data) && DenotesData(h, lo', hi', body, data')
    ensures data == data'
    decreases data, 0
  {
    hide Denotes;
    if data.List? {
      forall i | 0 <= i < |data.elems| ensures data.elems[i] == data'.elems[i] {
        DenotesOneValue(h, lo, hi, lo', hi', body.refs[i], data.elems[i], data'.elems[i]);
      }
      assert data.elems == data'.elems;
    } else if data.Strings? {
      forall i | 0 <= i < |data.strs| ensures data.strs[i] == data'.strs[i] {
        assert DenotesString(h, lo, hi, body.refs[i], data.strs[i]);
        assert DenotesString(h, lo', hi', body.refs[i], data'.strs[i]);
      }
      assert data.strs == data'.strs;
    }
  }

  /** A live graph keeps its meaning as the heap evolves. */
  lemma {:induction false} DenotesLater(h: Cells, h': Cells, lo: Ref, hi: Ref, r: Ref, v: SEXP)
    requires Denotes(h, lo, hi, r, v) && Closed(h') && Live(h', r)
    requires forall x :: x in h && lo <= x < hi && x in h' ==> h'[x] == h[x]
    ensures Denotes(h', lo, hi, r, v)
    decreases v
  {
    if v.Obj? {
      var cell := h[r];
      assert h'[r] == cell;
      assert forall k :: k in cell.Kids() ==> Live(h', k);
      assert cell.names in cell.Kids() && cell.dim in cell.Kids() && cell.dimnames in cell.Kids();
      DenotesLater(h, h', r + 1, hi, cell.names, v.names);
      DenotesLater(h, h', lo, r, cell.dim, v.dim);
      DenotesLater(h, h', lo, r, cell.dimnames, v.dimnames);
      if v.data.List? {
        forall i | 0 <= i < |v.data.elems|
          ensures Denotes(h', r + 1, hi, cell.body.refs[i], v.data.elems[i])
        {
          assert cell.body.refs[i] in cell.Kids();
          DenotesLater(h, h', r + 1, hi, cell.body.refs[i], v.data.elems[i]);
        }
      } else if v.data.Strings? {
        assert forall i | 0 <= i < |cell.body.refs| :: cell.body.refs[i] in cell.Kids();
        DenotesStringsLater(h, h', r + 1, hi, cell.body.refs, v.data.strs);
      }
    }
  }

  lemma DenotesStringsLater(h: Cells, h': Cells, lo: Ref, hi: Ref, refs: seq<Ref>, ss: seq<RString>)
    requires DenotesStrings(h, lo, hi, refs, ss)
    requires forall i | 0 <= i < |refs| :: Live(h', refs[i])
    requires forall x :: x in h && lo <= x < hi && x in h' ==> h'[x] == h[x]
    ensures DenotesStrings(h', lo, hi, refs, ss)
  {
    forall i | 0 <= i < |ss|
      ensures DenotesString(h', lo, hi, refs[i], ss[i])
    {
      assert DenotesString(h, lo, hi, refs[i], ss[i]);
    }
  }

  /** Writes outside `lo..hi` do not disturb a graph inside it; the bounds may be widened. */
  lemma {:induction false} DenotesBeside(h: Cells, lo: Ref, hi: Ref, h': Cells, lo': Ref, hi': Ref, r: Ref, v: SEXP)
    requires Denotes(h, lo, hi, r, v) && lo' <= lo && hi <= hi'
    requires forall x :: x in h && lo <= x < hi ==> x in h' && h'[x] == h[x]
    ensures Denotes(h', lo', hi', r, v)
    decreases v
  {
    hide DenotesData;
    if v.Obj? {
      DenotesDataBeside(h, r + 1, hi, h', hi', h[r].body, v.data);
      DenotesBeside(h, r + 1, hi, h', r + 1, hi', h[r].names, v.names);
      DenotesBeside(h, lo, r, h', lo', r, h[r].dim, v.dim);
      DenotesBeside(h, lo, r, h', lo', r, h[r].dimnames, v.dimnames);
    }
  }

  lemma {:induction false} DenotesDataBeside(h: Cells, lo: Ref, hi: Ref, h': Cells, hi': Ref, body: Body, data: Data)
    requires DenotesData(h, lo, hi, body, data) && hi <= hi'
    requires forall x :: x in h && lo <= x < hi ==> x in h' && h'[x] == h[x]
    ensures DenotesData(h', lo, hi', body, data)
    decreases data
  {
    hide Denotes, DenotesStrings;
    if data.List? {
      forall i | 0 <= i < |data.elems|
        ensures Denotes(h', lo, hi', body.refs[i], data.elems[i])
      {
        DenotesBeside(h, lo, hi, h', lo, hi', body.refs[i], data.elems[i]);
      }
    } else if data.Strings? {
      DenotesStringsBeside(h, lo, hi, h', lo, hi', body.refs, data.strs);
    }
  }

  lemma DenotesStringsBeside(h: Cells, lo: Ref, hi: Ref, h': Cells, lo': Ref, hi': Ref,
                             refs: seq<Ref>, ss: seq<RString>)
    requires DenotesStrings(h, lo, hi, refs, ss) && lo' <= lo && hi <= hi'
    requires forall x :: x in h && lo <= x < hi ==> x in h' && h'[x] == h[x]
    ensures DenotesStrings(h', lo', hi', refs, ss)
  {
    forall i | 0 <= i < |ss|
      ensures DenotesString(h', lo', hi', refs[i], ss[i])
    {
      assert DenotesString(h, lo, hi, refs[i], ss[i]);
    }
  }

  lemma EvolvesTrans(h1: Cells, n1: Ref, h2: Cells, n2: Ref, m: Ref, h3: Cells, n3: Ref)
    requires Evolves(h1, n1, h2, n2) && Evolves(h2, m, h3, n3) && n1 <= m
    ensures Evolves(h1, n1, h3, n3)
  {
  }

  // ---------- R's check of dim and dimnames, on the heap ----------

  predicate CellsAccept(h: Cells, value: Ref, dim: Ref, dimnames: Ref) {
    if value == NIL then dim == NIL && dimnames == NIL
    else if dim == NIL then dimnames == NIL
    else
      && value in h && h[value].VectorCell?
      && dim in h && h[dim].VectorCell? && h[dim].body.IntegerBody?
      && var ints := h[dim].body.ints;
      && |ints| > 0 && (forall x <- ints :: 0 <= x)
      && Product(ints) == h[value].body.Length()
      && (dimnames == NIL || CellsAcceptNames(h, ints, dimnames))
  }

  predicate CellsAcceptNames(h: Cells, ints: seq<I32>, dimnames: Ref) {
    && dimnames in h && h[dimnames].VectorCell? && h[dimnames].body.ListBody?
    && var refs := h[dimnames].body.refs;
    && 0 < |refs| <= |ints|
    && forall i | 0 <= i < |refs| ::
         refs[i] == NIL || (refs[i] in h && h[refs[i]].VectorCell? && h[refs[i]].body.Length() == ints[i])
  }

  lemma DenotedLength(h: Cells, lo: Ref, hi: Ref, r: Ref, v: SEXP)
    requires Denotes(h, lo, hi, r, v)
    ensures v.Null? == (r == NIL)
    ensures v.Obj? ==> r in h && h[r].VectorCell? && h[r].body.Length() == v.data.Length()
    ensures v.Obj? ==> h[r].body.IntegerBody? == v.data.Integers? && h[r].body.ListBody? == v.data.List?
    ensures v.Obj? && v.data.Integers? ==> h[r].body.ints == v.data.ints
  {
  }

  lemma NamesAcceptanceAgrees(h: Cells, dim: SEXP, lo: Ref, hi: Ref, dimnames: Ref, dn: SEXP)
    requires dim.Obj? && dim.data.Integers?
    requires Denotes(h, lo, hi, dimnames, dn) && dn.Obj?
    ensures CellsAcceptNames(h, dim.data.ints, dimnames) == DimnamesAccepted(dim, dn)
  {
    DenotedLength(h, lo, hi, dimnames, dn);
    if dn.data.List? {
      var refs, es := h[dimnames].body.refs, dn.data.elems;
      assert |refs| == |es|;
      forall i | 0 <= i < |es|
        ensures (refs[i] == NIL) == es[i].Null?
        ensures es[i].Obj? ==> refs[i] in h && h[refs[i]].VectorCell? && h[refs[i]].body.Length() == es[i].data.Length()
      {
        assert Denotes(h, dimnames + 1, hi, refs[i], es[i]);
        DenotedLength(h, dimnames + 1, hi, refs[i], es[i]);
      }
    }
  }

  lemma AcceptanceAgrees(h: Cells, lo1: Ref, hi1: Ref, value: Ref, v: SEXP,
                         lo2: Ref, hi2: Ref, dim: Ref, d: SEXP, lo3: Ref, hi3: Ref, dimnames: Ref, dn: SEXP)
    requires Denotes(h, lo1, hi1, value, v) && Denotes(h, lo2, hi2, dim, d) && Denotes(h, lo3, hi3, dimnames, dn)
    ensures CellsAccept(h, value, dim, dimnames) == ArrayAccepted(v, d, dn)
  {
    hide Denotes, DenotesData, DimnamesAccepted, CellsAcceptNames;
    DenotedLength(h, lo1, hi1, value, v);
    DenotedLength(h, lo2, hi2, dim, d);
    DenotedLength(h, lo3, hi3, dimnames, dn);
    if d.Obj? && d.data.Integers? && dn.Obj? {
      NamesAcceptanceAgrees(h, d, lo3, hi3, dimnames, dn);
    }
  }

  lemma ClosedStore(h: Cells, r: Ref, cell: Cell)
    requires Closed(h) && forall k :: k in cell.Kids() ==> Live(h[r := cell], k)
    ensures Closed(h[r := cell])
  {
    var h' := h[r := cell];
    forall x, k | x in h' && k in h'[x].Kids()
      ensures Live(h', k)
    {
      if x != r { assert x in h && h[x] == h'[x]; assert Live(h, k); }
    }
  }

  lemma ClosedRestriction(h: Cells, h': Cells)
    requires Closed(h) && h'.Keys <= h.Keys && forall r :: r in h' ==> h'[r] == h[r]
    requires forall r, k :: r in h' && k in h[r].Kids() && k in h ==> k in h'
    ensures Closed(h')
  {
    forall x, k | x in h' && k in h'[x].Kids()
      ensures Live(h', k)
    {
      assert x in h && h[x] == h'[x];
      assert Live(h, k);
    }
  }

  class Heap {
    var cells: Cells
    var next: Ref
    var stack: seq<Ref>   // the PROTECT stack, top last

    ghost predicate Valid()
      reads this
    {
      && FIRST <= next
      && (forall r :: r in cells ==> FIRST <= r < next)
      && Closed(cells)
      && (forall r <- stack :: Live(cells, r))
    }

    constructor ()
      ensures Valid() && stack == [] && cells == map[]
    {
      cells, next, stack := map[], FIRST, [];
    }

    /** Keeps what the stack reaches, and nothing else. */
    method Collect()
      requires Valid()
      modifies this`cells
      ensures Valid() && Evolves(old(cells), next, cells, next)
      ensures forall r <- stack :: Live(cells, r)
      ensures Retains(old(cells), stack, cells.Keys)
      ensures forall keep :: Retains(old(cells), stack, keep) ==> cells.Keys <= keep
    {
      var marked: set<Ref> := {};
      var work := set r | r in stack && r in cells;
      while work != {}
        invariant work !! marked && work + marked <= cells.Keys
        invariant forall r :: r in stack && r in cells ==> r in work + marked
        invariant forall r, k :: r in marked && k in cells[r].Kids() && k in cells ==> k in work + marked
        invariant forall keep :: Retains(cells, stack, keep) ==> work + marked <= keep
        decreases cells.Keys - marked
      {
        var r :| r in work;
        ghost var before := cells.Keys - marked;
        marked := marked + {r};
        assert r in before && r !in cells.Keys - marked;
        work := (work + (set k | k in cells[r].Kids() && k in cells)) - marked;
      }
      ghost var kept: Cells := map r | r in marked :: cells[r];
      ClosedRestriction(cells, kept);
      assert kept.Keys == marked;
      cells := map r | r in marked :: cells[r];
    }

    /** `Rf_allocVector` and `Rf_mkCharLen`: the collector runs, then the new object appears. */
    method Alloc(cell: Cell) returns (r: Ref)
      requires Valid() && forall k :: k in cell.Kids() ==> k < FIRST
      modifies this`cells, this`next
      ensures Valid() && r == old(next) && next == old(next) + 1
      ensures r in cells && cells[r] == cell
      ensures Evolves(old(cells), old(next), cells, next)
    {
      Collect();
      r := next;
      ClosedStore(cells, r, cell);
      cells := cells[r := cell];
      next := next + 1;
    }

    method Protect(r: Ref)
      requires Valid() && Live(cells, r)
      modifies this`stack
      ensures Valid() && stack == old(stack) + [r]
    {
      stack := stack + [r];
    }

    method Unprotect(n: nat)
      requires Valid() && n <= |stack|
      modifies this`stack
      ensures Valid() && stack == old(stack)[..|old(stack)| - n]
    {
      stack := stack[..|stack| - n];
    }

    /** A write into a live object: `LOGICAL(x)[i] = ...`, `SET_STRING_ELT`, `SET_VECTOR_ELT`. */
    method Store(r: Ref, cell: Cell)
      requires Valid() && r in cells && forall k :: k in cell.Kids() ==> Live(cells, k)
      modifies this`cells
      ensures Valid() && cells == old(cells)[r := cell]
    {
      ClosedStore(cells, r, cell);
      cells := cells[r := cell];
    }

    /** `Rf_setAttrib` protects its own arguments and allocates the attribute's list cell. */
    method PrepareAttrib(obj: Ref, val: Ref)
      requires Valid() && Live(cells, obj) && Live(cells, val)
      modifies this`cells, this`stack
      ensures Valid() && stack == old(stack)
      ensures Live(cells, obj) && Live(cells, val)
      ensures Evolves(old(cells), next, cells, next)
    {
      Protect(obj);
      Protect(val);
      Collect();
      Unprotect(2);
    }
  }
}
