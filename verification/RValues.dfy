/** R values as the serializer sees them, and the part of a value that a file keeps. */
module RValues {
  import opened Bytes

  /** A CHARSXP; R bounds its length by 2^31 - 1. */
  type Chars = s: seq<Byte> | |s| < 0x8000_0000
  datatype RString = NaString | Str(chars: Chars)

  /** The vector payload. `Foreign` is every SEXP type the serializer does not know. */
  datatype Data =
    | Logicals(ints: seq<I32>)
    | Integers(ints: seq<I32>)
    | Reals(reals: seq<Double>)
    | Strings(strs: seq<RString>)
    | List(elems: seq<SEXP>)
    | Foreign(size: nat)
  {
    function Length(): nat {
      match this
      case Logicals(xs) => |xs|
      case Integers(xs) => |xs|
      case Reals(xs) => |xs|
      case Strings(xs) => |xs|
      case List(xs) => |xs|
      case Foreign(n) => n
    }
  }

  /** An attribute that is absent is `Null`, as `Rf_getAttrib` reports it. */
  datatype SEXP =
    | Null
    | Obj(data: Data, names: SEXP, dim: SEXP, dimnames: SEXP, other: seq<SEXP>)

  function Plain(data: Data): SEXP {
    Obj(data, Null, Null, Null, [])
  }

  /** `writeValue` has a case for the type and, in a list, for every element. */
  predicate SupportedValue(v: SEXP)
    decreases v, 0
  {
    v.Obj? ==> !v.data.Foreign? && (v.data.List? ==> AllSupported(v.data.elems))
  }

  /** Every type reached by the writer is one it has a case for. */
  predicate Supported(v: SEXP)
    decreases v, 1
  {
    SupportedValue(v) && (v.Obj? && v.dim.Obj? ==> Supported(v.dim) && Supported(v.dimnames))
  }

  predicate AllSupported(vs: seq<SEXP>)
    decreases vs, 0
  {
    vs == [] || (Supported(vs[0]) && AllSupported(vs[1..]))
  }

  /** Every vector length that is written fits the 32-bit length field. */
  predicate InRange(v: SEXP)
    decreases v, 0
  {
    v.Obj? ==>
      && v.data.Length() < 0x1_0000_0000
      && (v.data.List? ==> AllInRange(v.data.elems))
      && (v.dim.Obj? ==> InRange(v.dim) && InRange(v.dimnames))
  }

  predicate AllInRange(vs: seq<SEXP>)
    decreases vs, 0
  {
    vs == [] || (InRange(vs[0]) && AllInRange(vs[1..]))
  }

  /** No value that is written carries a dim attribute. */
  predicate ArrayFree(v: SEXP)
    decreases v, 0
  {
    v.Obj? ==> v.dim.Null? && (v.data.List? ==> AllArrayFree(v.data.elems))
  }

  predicate AllArrayFree(vs: seq<SEXP>)
    decreases vs, 0
  {
    vs == [] || (ArrayFree(vs[0]) && AllArrayFree(vs[1..]))
  }

  function Product(dims: seq<I32>): int {
    if dims == [] then 1 else dims[0] * Product(dims[1..])
  }

  /** The extents of two parts multiply, and one extent is itself. */
  lemma {:induction false} ProductOfParts(a: seq<I32>, b: seq<I32>)
    ensures Product(a + b) == Product(a) * Product(b)
    ensures |a| == 1 ==> Product(a) == a[0]
  {
    if a == [] {
      assert a + b == b;
    } else {
      assert (a + b)[0] == a[0] && (a + b)[1..] == a[1..] + b;
      ProductOfParts(a[1..], b);
      Reassociate(a[0], Product(a[1..]), Product(b));
    }
  }

  lemma Reassociate(x: int, y: int, z: int)
    ensures x * (y * z) == (x * y) * z
  {
  }

  lemma ProductOfTwo(r: I32, c: I32)
    ensures Product([r, c]) == r * c
  {
    assert [r] + [c] == [r, c];
    ProductOfParts([r], [c]);
    ProductOfParts([c], []);
  }

  predicate DimAccepted(length: nat, dim: SEXP) {
    && dim.Obj? && dim.data.Integers?
    && |dim.data.ints| > 0
    && (forall x <- dim.data.ints :: 0 <= x)
    && Product(dim.data.ints) == length
  }

  predicate DimnamesAccepted(dim: SEXP, dimnames: SEXP)
    requires dim.Obj? && dim.data.Integers?
  {
    && dimnames.Obj? && dimnames.data.List?
    && 0 < |dimnames.data.elems| <= |dim.data.ints|
    && (forall i | 0 <= i < |dimnames.data.elems| ::
          var e := dimnames.data.elems[i];
          e.Null? || e.data.Length() == dim.data.ints[i])
  }

  /** When `Rf_setAttrib` takes this dim and these dimnames on this value without an R error. */
  predicate ArrayAccepted(value: SEXP, dim: SEXP, dimnames: SEXP) {
    match (value, dim)
    case (Null, _) => dim.Null? && dimnames.Null?
    case (_, Null) => dimnames.Null?
    case _ =>
      && DimAccepted(value.data.Length(), dim)
      && (dimnames.Null? || DimnamesAccepted(dim, dimnames))
  }

  function MatrixDim(r: I32, c: I32): SEXP {
    Plain(Integers([r, c]))
  }

  function MatrixOf(data: Data, r: I32, c: I32, dimnames: SEXP): SEXP {
    Obj(data, Null, MatrixDim(r, c), dimnames, [])
  }

  function NamesOfTwo(rows: SEXP, cols: SEXP): SEXP {
    Plain(List([rows, cols]))
  }

  /** Names for n rows or columns: none, or n strings. */
  predicate NamesFor(x: SEXP, n: I32) {
    x.Obj? ==> x == Plain(x.data) && x.data.Strings? && |x.data.strs| == n
  }

  /** The dim [r, c] is taken by exactly the vectors of r * c elements, and row and column names by
      exactly the matrices with as many rows and columns; either may be absent. */
  lemma MatrixAccepted(value: SEXP, r: I32, c: I32, rows: SEXP, cols: SEXP)
    requires value.Obj?
    ensures ArrayAccepted(value, MatrixDim(r, c), Null) <==> 0 <= r && 0 <= c && value.data.Length() == r * c
    ensures ArrayAccepted(value, MatrixDim(r, c), NamesOfTwo(rows, cols)) <==>
            && ArrayAccepted(value, MatrixDim(r, c), Null)
            && (rows.Obj? ==> rows.data.Length() == r) && (cols.Obj? ==> cols.data.Length() == c)
  {
    ProductOfTwo(r, c);
    var dim, names := MatrixDim(r, c), NamesOfTwo(rows, cols);
    assert r in dim.data.ints && c in dim.data.ints;
    assert dim.data.ints[0] == r && dim.data.ints[1] == c;
    assert names.data.elems[0] == rows && names.data.elems[1] == cols;
  }

  function WithDim(value: SEXP, dim: SEXP, dimnames: SEXP): SEXP {
    if value.Null? then Null else value.(dim := dim, dimnames := dimnames)
  }

  /** R's own invariant on arrays: it accepted the dim and dimnames the value carries. */
  predicate Legal(v: SEXP)
    decreases v, 0
  {
    v.Obj? ==>
      && (v.data.List? ==> AllLegal(v.data.elems))
      && (v.dim.Obj? ==> ArrayAccepted(v, v.dim, v.dimnames) && Legal(v.dim) && Legal(v.dimnames))
  }

  predicate AllLegal(vs: seq<SEXP>)
    decreases vs, 0
  {
    vs == [] || (Legal(vs[0]) && AllLegal(vs[1..]))
  }

  /** The names block is written only for a character vector as long as the list. */
  predicate HasNames(v: SEXP) {
    && v.Obj? && v.data.List?
    && v.names.Obj? && v.names.data.Strings?
    && |v.names.data.strs| == |v.data.elems|
  }

  /** What format version `ver` keeps of `v`, without and with the array attributes. */
  function Bare(v: SEXP, ver: nat): SEXP
    decreases v, 1
  {
    if v.Null? then Null else
    match v.data
    case List(es) =>
      Plain(List(ProjectAll(es, ver))).(
        names := if ver >= 2 && HasNames(v) then Plain(v.names.data) else Null)
    case _ => Plain(v.data)
  }

  function Project(v: SEXP, ver: nat): SEXP
    decreases v, 2
  {
    if v.Null? || v.dim.Null? then Bare(v, ver)
    else WithDim(Bare(v, ver), Project(v.dim, ver), Project(v.dimnames, ver))
  }

  function ProjectAll(vs: seq<SEXP>, ver: nat): (ps: seq<SEXP>)
    ensures |ps| == |vs|
    decreases vs, 0
  {
    if vs == [] then [] else [Project(vs[0], ver)] + ProjectAll(vs[1..], ver)
  }

  lemma ProjectedData(v: SEXP, ver: nat)
    requires v.Obj?
    ensures Bare(v, ver).Obj? && Project(v, ver).Obj?
    ensures Project(v, ver).data == Bare(v, ver).data ==
            if v.data.List? then List(ProjectAll(v.data.elems, ver)) else v.data
  {
    assert Bare(v, ver).Obj?;
    assert Bare(v, ver).data == if v.data.List? then List(ProjectAll(v.data.elems, ver)) else v.data;
  }

  lemma {:induction false} ProjectAllAt(vs: seq<SEXP>, ver: nat, i: nat)
    requires i < |vs|
    ensures ProjectAll(vs, ver)[i] == Project(vs[i], ver)
  {
    if i > 0 {
      ProjectAllAt(vs[1..], ver, i - 1);
    }
  }

  /** The number of vectors a reader allocates for a value, names vectors excluded. */
  function Nodes(v: SEXP): nat
    decreases v, 0
  {
    if v.Null? then 0 else
    1 + (if v.data.List? then NodesAll(v.data.elems) else 0)
      + (if v.dim.Obj? then Nodes(v.dim) + Nodes(v.dimnames) else 0)
  }

  function NodesAll(vs: seq<SEXP>): nat
    decreases vs, 0
  {
    if vs == [] then 0 else Nodes(vs[0]) + NodesAll(vs[1..])
  }

  /** The number of array tags a writer emits for a value. */
  function Arrays(v: SEXP): nat
    decreases v, 0
  {
    if v.Null? then 0 else
    (if v.data.List? then ArraysAll(v.data.elems) else 0)
    + (if v.dim.Obj? then 1 + Arrays(v.dim) + Arrays(v.dimnames) else 0)
  }

  function ArraysAll(vs: seq<SEXP>): nat
    decreases vs, 0
  {
    if vs == [] then 0 else Arrays(vs[0]) + ArraysAll(vs[1..])
  }
}
