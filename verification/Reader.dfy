/** The reader half of the serializer: an input stream, the R heap, and hand-kept protection.
    Every routine is proved against the parse of module Format. */
module Reader {
  import opened Bytes
  import opened RValues
  import opened Format
  import opened RHeap

  /** An opened `ifstream` over the whole content of a file. */
  class InStream {
    const data: seq<Byte>
    var pos: nat

    ghost predicate Valid()
      reads this
    {
      pos <= |data|
    }

    ghost function Rest(): seq<Byte>
      requires Valid()
      reads this
    {
      data[pos..]
    }

    constructor (data: seq<Byte>)
      ensures Valid() && this.data == data && Rest() == data
    {
      this.data := data;
      pos := 0;
    }

    method ReadBytes(n: nat) returns (r: Result<seq<Byte>>)
      requires Valid()
      modifies this
      ensures Valid()
      ensures n <= |old(Rest())| ==> r == Val(old(Rest())[..n]) && Rest() == old(Rest())[n..]
      ensures n > |old(Rest())| ==> r == Err(ShortRead)
    {
      if |data| - pos < n {
        r := Err(ShortRead);
      } else {
        r := Val(data[pos..pos + n]);
        assert data[pos..][n..] == data[pos + n..] && data[pos..][..n] == data[pos..pos + n];
        pos := pos + n;
      }
    }

    method ReadU32() returns (r: Result<U32>)
      requires Valid()
      modifies this
      ensures Valid()
      ensures match Word32(old(Rest()))
              case Failed(e) => r == Err(e)
              case Got(w, rest) => r == Val(w) && Rest() == rest
    {
      var bs := ReadBytes(4);
      match bs
      case Err(e) => r := Err(e);
      case Val(w) =>
        r := Val(GetU32(w));
    }
  }

  datatype Result<+T> = Val(v: T) | Err(e: ReadError)

  /** A result with elements already read put in front. */
  ghost function Before<T>(xs: seq<T>, r: Read<seq<T>>): Read<seq<T>> {
    match r
    case Failed(e) => Failed(e)
    case Got(ys, rest) => Got(xs + ys, rest)
  }

  ghost function BeforeItems(xs: Item<seq<SEXP>>, r: Read<Item<seq<SEXP>>>): Read<Item<seq<SEXP>>> {
    match r
    case Failed(e) => Failed(e)
    case Got(ys, rest) => Got(Item(xs.v + ys.v, xs.nodes + ys.nodes, xs.arrays + ys.arrays), rest)
  }

  lemma NothingBefore<T>(r: Read<seq<T>>)
    ensures Before([], r) == r
  {
    if r.Got? { assert [] + r.value == r.value; }
  }

  lemma IntsStep(xs: seq<I32>, n: nat, bs: seq<Byte>)
    requires n > 0
    ensures match Word32(bs)
            case Failed(e) => Before(xs, ReadInts(n, bs)) == Failed(e)
            case Got(w, rest) => Before(xs, ReadInts(n, bs)) == Before(xs + [Signed(w)], ReadInts(n - 1, rest))
  {
    if Word32(bs).Got? && ReadInts(n - 1, Word32(bs).rest).Got? {
      var x, ys := Signed(Word32(bs).value), ReadInts(n - 1, Word32(bs).rest).value;
      assert xs + ([x] + ys) == xs + [x] + ys;
    }
  }

  lemma StringsStep(ss: seq<RString>, n: nat, bs: seq<Byte>)
    requires n > 0
    ensures match ReadString(bs)
            case Failed(e) => Before(ss, ReadStrings(n, bs)) == Failed(e)
            case Got(s, rest) => Before(ss, ReadStrings(n, bs)) == Before(ss + [s], ReadStrings(n - 1, rest))
  {
    if ReadString(bs).Got? && ReadStrings(n - 1, ReadString(bs).rest).Got? {
      var s, ys := ReadString(bs).value, ReadStrings(n - 1, ReadString(bs).rest).value;
      assert ss + ([s] + ys) == ss + [s] + ys;
    }
  }

  function Vector(body: Body): Cell {
    VectorCell(body, NIL, NIL, NIL)
  }

  function IntBody(logical: bool, ints: seq<I32>): Body {
    if logical then LogicalBody(ints) else IntegerBody(ints)
  }

  /** The element loop of the logical and integer cases. */
  method FillInts(input: InStream, gc: Heap, vec: Ref, n: U32, logical: bool) returns (r: Result<()>)
    requires input.Valid() && gc.Valid() && vec in gc.cells
    requires gc.cells[vec] == Vector(IntBody(logical, seq(n, _ => 0)))
    modifies input, gc`cells
    ensures input.Valid() && gc.Valid()
    ensures match ReadInts(n, old(input.Rest()))
            case Failed(e) => r == Err(e)
            case Got(xs, rest) =>
              r.Val? && input.Rest() == rest && gc.cells == old(gc.cells)[vec := Vector(IntBody(logical, xs))]
  {
    hide ReadInts, Before, gc.Valid;
    ghost var whole := ReadInts(n, input.Rest());
    NothingBefore(whole);
    var ints: seq<I32> := seq(n, _ => 0);
    assert ints[..0] == [];
    for i := 0 to n
      invariant input.Valid() && gc.Valid()
      invariant |ints| == n && whole == Before(ints[..i], ReadInts(n - i, input.Rest()))
      invariant gc.cells == old(gc.cells)[vec := Vector(IntBody(logical, ints))]
    {
      IntsStep(ints[..i], n - i, input.Rest());
      var w := input.ReadU32();
      match w {
        case Err(e) => return Err(e);
        case Val(word) =>
          ints := ints[i := Signed(word)];
          gc.Store(vec, Vector(IntBody(logical, ints)));
          assert ints[..i + 1] == ints[..i] + [Signed(word)];
      }
    }
    assert ints[..n] == ints;
    IntsDone(ints, input.Rest());
    r := Val(());
  }

  lemma IntsDone(xs: seq<I32>, bs: seq<Byte>)
    ensures Before(xs, ReadInts(0, bs)) == Got(xs, bs)
  {
    assert xs + [] == xs;
  }

  /** What holds on every way out, with a value or an error: n objects were added to the stack, the
      count says so, and they are none only if nothing was allocated. */
  ghost predicate Balanced(next: Ref, stack: seq<Ref>, count: nat, next': Ref, stack': seq<Ref>, count': nat, n: nat) {
    && stack <= stack' && |stack'| == |stack| + n && count' == count + n
    && next <= next' && (next == next' <==> n == 0)
  }

  /** What every vector case leaves behind: a new protected object, and an otherwise kept heap. */
  ghost predicate Built(cells: Cells, next: Ref, stack: seq<Ref>,
                        cells': Cells, next': Ref, stack': seq<Ref>, r: Result<Ref>, v: SEXP)
  {
    && r.Val?
    && stack' == stack + [r.v]
    && Evolves(cells, next, cells', next')
    && Denotes(cells', next, next', r.v, v)
  }

  lemma VectorDenotes(cells: Cells, lo: Ref, hi: Ref, r: Ref, body: Body, data: Data)
    requires r in cells && cells[r] == Vector(body) && FIRST <= r && lo <= r < hi
    requires DenotesData(cells, r + 1, hi, body, data)
    ensures Denotes(cells, lo, hi, r, Plain(data))
  {
  }

  method ReadIntVector(input: InStream, gc: Heap, n: U32, logical: bool, protectCount: nat)
    returns (r: Result<Ref>, protectCount': nat)
    requires input.Valid() && gc.Valid()
    modifies input, gc
    ensures input.Valid() && gc.Valid()
    ensures Balanced(old(gc.next), old(gc.stack), protectCount, gc.next, gc.stack, protectCount',
                     1)
    ensures match ReadVector(if logical then K_LOGICAL else K_INTEGER, n, old(input.Rest()))
            case Failed(e) => r == Err(e)
            case Got(data, rest) =>
              && input.Rest() == rest && protectCount' == protectCount + 1
              && Built(old(gc.cells), old(gc.next), old(gc.stack), gc.cells, gc.next, gc.stack, r, Plain(data))
  {
    hide ReadInts;
    var vec := gc.Alloc(Vector(IntBody(logical, seq(n, _ => 0))));
    gc.Protect(vec);
    protectCount' := protectCount + 1;
    var filled := FillInts(input, gc, vec, n, logical);
    if filled.Err? { return Err(filled.e), protectCount'; }
    ghost var data := ReadVector(if logical then K_LOGICAL else K_INTEGER, n, old(input.Rest())).value;
    VectorDenotes(gc.cells, old(gc.next), gc.next, vec, gc.cells[vec].body, data);
    r := Val(vec);
  }

  method ReadRealVector(input: InStream, gc: Heap, n: U32, protectCount: nat)
    returns (r: Result<Ref>, protectCount': nat)
    requires input.Valid() && gc.Valid()
    modifies input, gc
    ensures input.Valid() && gc.Valid()
    ensures Balanced(old(gc.next), old(gc.stack), protectCount, gc.next, gc.stack, protectCount',
                     1)
    ensures match ReadVector(K_REAL, n, old(input.Rest()))
            case Failed(e) => r == Err(e)
            case Got(data, rest) =>
              && input.Rest() == rest && protectCount' == protectCount + 1
              && Built(old(gc.cells), old(gc.next), old(gc.stack), gc.cells, gc.next, gc.stack, r, Plain(data))
  {
    var vec := gc.Alloc(Vector(RealBody(seq(n, _ => [0, 0, 0, 0, 0, 0, 0, 0]))));
    gc.Protect(vec);
    protectCount' := protectCount + 1;
    var bytes := input.ReadBytes(8 * n);
    if bytes.Err? { return Err(bytes.e), protectCount'; }
    var reals := Split8(bytes.v);
    gc.Store(vec, Vector(RealBody(reals)));
    VectorDenotes(gc.cells, old(gc.next), gc.next, vec, RealBody(reals), Reals(reals));
    r := Val(vec);
  }

  /** The new CHARSXP is not protected: it must be stored before the next allocation. */
  method ReadStringRef(input: InStream, gc: Heap) returns (r: Result<Ref>)
    requires input.Valid() && gc.Valid()
    modifies input, gc`cells, gc`next
    ensures input.Valid() && gc.Valid() && old(gc.next) <= gc.next
    ensures match ReadString(old(input.Rest()))
            case Failed(e) => r == Err(e)
            case Got(s, rest) =>
              && r.Val? && input.Rest() == rest && Live(gc.cells, r.v)
              && Evolves(old(gc.cells), old(gc.next), gc.cells, gc.next)
              && DenotesString(gc.cells, old(gc.next), gc.next, r.v, s)
  {
    var w := input.ReadU32();
    if w.Err? { return Err(w.e); }
    var length := Signed(w.v);
    if length == -1 { return Val(NA_STRING); }
    if length < 0 { return Err(BadStringLength); }
    var buffer: seq<Byte> := [];
    if length > 0 {
      var bytes := input.ReadBytes(length);
      if bytes.Err? { return Err(bytes.e); }
      buffer := bytes.v;
    } else {
      assert input.Rest()[..0] == [] && input.Rest()[0..] == input.Rest();
    }
    var str := gc.Alloc(CharCell(buffer));
    r := Val(str);
  }

  lemma StringsDone(ss: seq<RString>, bs: seq<Byte>)
    ensures Before(ss, ReadStrings(0, bs)) == Got(ss, bs)
  {
    assert ss + [] == ss;
  }

  /** Reading one more string into slot `i` of a protected vector. */
  lemma StringSlotFilled(before: Cells, n0: Ref, mid: Cells, n1: Ref, vec: Ref, refs: seq<Ref>, i: nat,
                         str: Ref, ss: seq<RString>, s: RString)
    requires vec in mid && vec < n0 <= n1 && i < |refs| && |ss| == i
    requires Closed(mid) && mid[vec] == Vector(StringBody(refs))
    requires DenotesStrings(before, vec + 1, n0, refs[..i], ss) && Evolves(before, n0, mid, n1)
    requires DenotesString(mid, n0, n1, str, s)
    ensures var refs' := refs[i := str];
            DenotesStrings(mid[vec := Vector(StringBody(refs'))], vec + 1, n1, refs'[..i + 1], ss + [s])
  {
    assert forall r <- refs[..i] :: r in mid[vec].Kids();
    DenotesStringsLater(before, mid, vec + 1, n0, refs[..i], ss);
    var cells := mid[vec := Vector(StringBody(refs[i := str]))];
    DenotesStringsBeside(mid, vec + 1, n0, cells, vec + 1, n1, refs[..i], ss);
    var done := refs[i := str][..i + 1];
    assert done == refs[..i] + [str];
    forall j | 0 <= j <= i
      ensures DenotesString(cells, vec + 1, n1, done[j], (ss + [s])[j])
    {
      if j < i { assert DenotesString(cells, vec + 1, n1, refs[..i][j], ss[j]); }
    }
  }

  /** The element loop of the string case, used for list names as well. */
  method FillStrings(input: InStream, gc: Heap, vec: Ref, n: U32) returns (r: Result<()>)
    requires input.Valid() && gc.Valid()
    requires vec in gc.cells && vec in gc.stack && gc.next == vec + 1
    requires gc.cells[vec] == Vector(StringBody(seq(n, _ => BLANK_STRING)))
    modifies input, gc`cells, gc`next
    ensures input.Valid() && gc.Valid() && old(gc.next) <= gc.next
    ensures match ReadStrings(n, old(input.Rest()))
            case Failed(e) => r == Err(e)
            case Got(ss, rest) =>
              && r.Val? && input.Rest() == rest
              && Evolves(old(gc.cells), vec, gc.cells, gc.next) && vec < gc.next
              && vec in gc.cells && gc.cells[vec].VectorCell? && gc.cells[vec] == Vector(gc.cells[vec].body)
              && DenotesData(gc.cells, vec + 1, gc.next, gc.cells[vec].body, Strings(ss))
  {
    hide ReadStrings, ReadString, Before;
    ghost var whole := ReadStrings(n, input.Rest());
    NothingBefore(whole);
    var refs: seq<Ref> := seq(n, _ => BLANK_STRING);
    ghost var ss: seq<RString> := [];
    assert refs[..0] == [];
    for i := 0 to n
      invariant input.Valid() && gc.Valid()
      invariant |refs| == n && |ss| == i && whole == Before(ss, ReadStrings(n - i, input.Rest()))
      invariant vec in gc.cells && gc.cells[vec] == Vector(StringBody(refs)) && vec < gc.next
      invariant Evolves(old(gc.cells), vec, gc.cells, gc.next)
      invariant DenotesStrings(gc.cells, vec + 1, gc.next, refs[..i], ss)
    {
      ghost var rest := input.Rest();
      StringsStep(ss, n - i, rest);
      ghost var before, n0 := gc.cells, gc.next;
      var str := ReadStringRef(input, gc);
      if str.Err? { return Err(str.e); }
      ghost var s := ReadString(rest).value;
      assert Live(gc.cells, vec);
      assert vec in gc.cells && gc.cells[vec] == before[vec];
      StringSlotFilled(before, n0, gc.cells, gc.next, vec, refs, i, str.v, ss, s);
      refs := refs[i := str.v];
      gc.Store(vec, Vector(StringBody(refs)));
      ss := ss + [s];
    }
    assert refs[..n] == refs;
    StringsDone(ss, input.Rest());
    r := Val(());
  }

  method ReadStringVector(input: InStream, gc: Heap, n: U32, protectCount: nat)
    returns (r: Result<Ref>, protectCount': nat)
    requires input.Valid() && gc.Valid()
    modifies input, gc
    ensures input.Valid() && gc.Valid()
    ensures Balanced(old(gc.next), old(gc.stack), protectCount, gc.next, gc.stack, protectCount',
                     1)
    ensures match ReadVector(K_STRING, n, old(input.Rest()))
            case Failed(e) => r == Err(e)
            case Got(data, rest) =>
              && input.Rest() == rest && protectCount' == protectCount + 1
              && Built(old(gc.cells), old(gc.next), old(gc.stack), gc.cells, gc.next, gc.stack, r, Plain(data))
  {
    hide ReadStrings;
    var vec := gc.Alloc(Vector(StringBody(seq(n, _ => BLANK_STRING))));
    gc.Protect(vec);
    protectCount' := protectCount + 1;
    ghost var mid, n1 := gc.cells, gc.next;
    var filled := FillStrings(input, gc, vec, n);
    if filled.Err? { return Err(filled.e), protectCount'; }
    EvolvesTrans(old(gc.cells), old(gc.next), mid, n1, vec, gc.cells, gc.next);
    VectorDenotes(gc.cells, old(gc.next), gc.next, vec, gc.cells[vec].body,
                  ReadVector(K_STRING, n, old(input.Rest())).value);
    r := Val(vec);
  }

  /** A list under construction: `refs` are its slots so far, `names` its names vector. */
  function Listing(refs: seq<Ref>, names: Ref): Cell {
    VectorCell(ListBody(refs), names, NIL, NIL)
  }

  /** The names block. The names vector is protected while it is filled and popped once the
      protected list holds it. */
  method ReadNamesInto(input: InStream, gc: Heap, list: Ref, n: U32, ver: nat, protectCount: nat)
    returns (r: Result<Ref>, protectCount': nat)
    requires input.Valid() && gc.Valid()
    requires list in gc.cells && list in gc.stack && gc.next == list + 1
    requires gc.cells[list] == Listing(seq(n, _ => NIL), NIL)
    modifies input, gc
    ensures input.Valid() && gc.Valid()
    ensures old(gc.stack) <= gc.stack && old(gc.next) <= gc.next
    ensures var left := ProtectedByNames(n, old(input.Rest()), ver);
            |gc.stack| == |old(gc.stack)| + left && protectCount' == protectCount + left
    ensures match ReadNames(n, old(input.Rest()), ver)
            case Failed(e) => r == Err(e)
            case Got(names, rest) =>
              && r.Val? && input.Rest() == rest && gc.stack == old(gc.stack) && protectCount' == protectCount
              && Evolves(old(gc.cells), list, gc.cells, gc.next) && list < gc.next
              && list in gc.cells && gc.cells[list] == Listing(seq(n, _ => NIL), r.v)
              && Denotes(gc.cells, list + 1, gc.next, r.v, names)
  {
    hide ReadStrings;
    protectCount' := protectCount;
    if ver < 2 { return Val(NIL), protectCount; }
    var flag := input.ReadU32();
    if flag.Err? { return Err(flag.e), protectCount; }
    if flag.v > 1 { return Err(BadNameFlag), protectCount; }
    if flag.v == 0 { return Val(NIL), protectCount; }
    ghost var stack := gc.stack;
    ghost var names := ReadNames(n, old(input.Rest()), ver);
    var nms := gc.Alloc(Vector(StringBody(seq(n, _ => BLANK_STRING))));
    gc.Protect(nms);
    protectCount' := protectCount' + 1;
    assert Live(gc.cells, list);
    ghost var mid, n1 := gc.cells, gc.next;
    var filled := FillStrings(input, gc, nms, n);
    if filled.Err? { return Err(filled.e), protectCount'; }
    assert Live(gc.cells, list) && gc.cells[list] == mid[list];
    VectorDenotes(gc.cells, list + 1, gc.next, nms, gc.cells[nms].body, names.value.data);
    AttachNames(gc, list, nms, n, names.value);
    gc.Unprotect(1);
    protectCount' := protectCount' - 1;
    assert gc.stack == stack;
    r := Val(nms);
  }

  /** `Rf_setAttrib(list, R_NamesSymbol, nms)`. */
  method AttachNames(gc: Heap, list: Ref, nms: Ref, n: nat, ghost names: SEXP)
    requires gc.Valid() && list in gc.cells && gc.cells[list] == Listing(seq(n, _ => NIL), NIL)
    requires Live(gc.cells, nms) && Denotes(gc.cells, list + 1, gc.next, nms, names)
    modifies gc`cells, gc`stack
    ensures gc.Valid() && gc.stack == old(gc.stack)
    ensures Evolves(old(gc.cells), list, gc.cells, gc.next)
    ensures list in gc.cells && gc.cells[list] == Listing(seq(n, _ => NIL), nms)
    ensures Denotes(gc.cells, list + 1, gc.next, nms, names)
  {
    ghost var before := gc.cells;
    gc.PrepareAttrib(list, nms);
    DenotesLater(before, gc.cells, list + 1, gc.next, nms, names);
    ghost var mid := gc.cells;
    gc.Store(list, Listing(seq(n, _ => NIL), nms));
    DenotesBeside(mid, list + 1, gc.next, gc.cells, list + 1, gc.next, nms, names);
  }

  /** What reading one value of any kind leaves behind. */
  ghost predicate Grown(cells: Cells, next: Ref, stack: seq<Ref>,
                        cells': Cells, next': Ref, stack': seq<Ref>, r: Ref, v: SEXP, nodes: nat)
  {
    && stack <= stack' && |stack'| == |stack| + nodes
    && Evolves(cells, next, cells', next')
    && Denotes(cells', next, next', r, v)
    && (r == NIL || r in stack'[|stack|..])
  }

  ghost predicate Filled(cells: Cells, list: Ref, next: Ref, refs: seq<Ref>, vs: seq<SEXP>) {
    |refs| == |vs| && forall i | 0 <= i < |vs| :: Denotes(cells, list + 1, next, refs[i], vs[i])
  }

  /** Storing the element just read, with everything read before it still intact. */
  lemma ListSlotFilled(before: Cells, n0: Ref, mid: Cells, n1: Ref, list: Ref, refs: seq<Ref>, names: Ref, i: nat,
                       e: Ref, vs: seq<SEXP>, v: SEXP, nv: SEXP)
    requires list in mid && list < n0 <= n1 && i < |refs| && |vs| == i
    requires Closed(mid) && mid[list] == Listing(refs, names)
    requires Filled(before, list, n0, refs[..i], vs) && Denotes(before, list + 1, n0, names, nv)
    requires Evolves(before, n0, mid, n1) && Denotes(mid, n0, n1, e, v)
    ensures var cells := mid[list := Listing(refs[i := e], names)];
            Filled(cells, list, n1, refs[i := e][..i + 1], vs + [v]) && Denotes(cells, list + 1, n1, names, nv)
  {
    hide Denotes;
    var cells := mid[list := Listing(refs[i := e], names)];
    assert names in mid[list].Kids();
    DenotesLater(before, mid, list + 1, n0, names, nv);
    DenotesBeside(mid, list + 1, n0, cells, list + 1, n1, names, nv);
    DenotesBeside(mid, n0, n1, cells, list + 1, n1, e, v);
    var done := refs[i := e][..i + 1];
    assert done == refs[..i] + [e];
    forall j | 0 <= j <= i
      ensures Denotes(cells, list + 1, n1, done[j], (vs + [v])[j])
    {
      if j < i {
        assert done[j] == refs[..i][j] && done[j] in mid[list].Kids();
        DenotesLater(before, mid, list + 1, n0, done[j], vs[j]);
        DenotesBeside(mid, list + 1, n0, cells, list + 1, n1, done[j], vs[j]);
      }
    }
  }

  lemma ItemsStep(xs: Item<seq<SEXP>>, n: nat, bs: seq<Byte>, ver: nat)
    requires n > 0
    ensures match Parse(bs, ver)
            case Failed(e) => BeforeItems(xs, ParseAll(n, bs, ver)) == Failed(e)
            case Got(x, rest) =>
              BeforeItems(xs, ParseAll(n, bs, ver)) ==
              BeforeItems(Item(xs.v + [x.v], xs.nodes + x.nodes, xs.arrays + x.arrays), ParseAll(n - 1, rest, ver))
  {
    hide Parse;
    if Parse(bs, ver).Got? && ParseAll(n - 1, Parse(bs, ver).rest, ver).Got? {
      var x, ys := Parse(bs, ver).value, ParseAll(n - 1, Parse(bs, ver).rest, ver).value;
      assert xs.v + ([x.v] + ys.v) == xs.v + [x.v] + ys.v;
    }
  }

  lemma ItemsEnds(xs: Item<seq<SEXP>>, bs: seq<Byte>, r: Read<Item<seq<SEXP>>>, ver: nat)
    ensures BeforeItems(xs, ParseAll(0, bs, ver)) == Got(xs, bs)
    ensures BeforeItems(Item([], 0, 0), r) == r
  {
    assert xs.v + [] == xs.v;
    if r.Got? { assert [] + r.value.v == r.value.v; }
  }

  lemma ProtectedStep(n: nat, bs: seq<Byte>, ver: nat)
    requires n > 0
    ensures ProtectedByAll(n, bs, ver) ==
            Protected(bs, ver) +
            (if Parse(bs, ver).Got? then ProtectedByAll(n - 1, Parse(bs, ver).rest, ver) else 0)
  {
    hide Parse, Protected;
  }

  lemma ProtectedEnds(bs: seq<Byte>, ver: nat)
    ensures ProtectedByAll(0, bs, ver) == 0
  {
  }

  /** The element loop of the list case. */
  method FillList(input: InStream, gc: Heap, list: Ref, names: Ref, n: U32, ver: nat, protectCount: nat,
                  ghost nv: SEXP)
    returns (r: Result<()>, protectCount': nat)
    requires input.Valid() && gc.Valid()
    requires list in gc.cells && list in gc.stack && list < gc.next
    requires gc.cells[list] == Listing(seq(n, _ => NIL), names) && Denotes(gc.cells, list + 1, gc.next, names, nv)
    modifies input, gc
    ensures input.Valid() && gc.Valid()
    ensures Balanced(old(gc.next), old(gc.stack), protectCount, gc.next, gc.stack, protectCount',
                     ProtectedByAll(n, old(input.Rest()), ver))
    ensures match ParseAll(n, old(input.Rest()), ver)
            case Failed(e) => r == Err(e)
            case Got(xs, rest) =>
              && r.Val? && input.Rest() == rest && protectCount' == protectCount + xs.nodes
              && old(gc.stack) <= gc.stack && |gc.stack| == |old(gc.stack)| + xs.nodes
              && Evolves(old(gc.cells), list, gc.cells, gc.next) && list < gc.next
              && list in gc.cells && gc.cells[list].VectorCell? && gc.cells[list].body.ListBody?
              && gc.cells[list] == Listing(gc.cells[list].body.refs, names)
              && Filled(gc.cells, list, gc.next, gc.cells[list].body.refs, xs.v)
              && Denotes(gc.cells, list + 1, gc.next, names, nv)
    decreases |input.Rest()|, 1
  {
    hide Parse, ParseAll, BeforeItems, Denotes, Protected, ProtectedByAll;
    ghost var start := input.Rest();
    ghost var whole := ParseAll(n, input.Rest(), ver);
    ghost var xs: Item<seq<SEXP>> := Item([], 0, 0);
    ItemsEnds(xs, [], whole, ver);
    ghost var left := ProtectedByAll(n, start, ver);
    var refs: seq<Ref> := seq(n, _ => NIL);
    protectCount' := protectCount;
    for i := 0 to n
      invariant input.Valid() && gc.Valid() && |input.Rest()| <= |start|
      invariant |refs| == n && |xs.v| == i && whole == BeforeItems(xs, ParseAll(n - i, input.Rest(), ver))
      invariant xs.nodes + ProtectedByAll(n - i, input.Rest(), ver) == left
      invariant Balanced(old(gc.next), old(gc.stack), protectCount, gc.next, gc.stack, protectCount', xs.nodes)
      invariant list in gc.cells && gc.cells[list] == Listing(refs, names) && list < gc.next
      invariant Evolves(old(gc.cells), list, gc.cells, gc.next)
      invariant Filled(gc.cells, list, gc.next, refs[..i], xs.v)
      invariant Denotes(gc.cells, list + 1, gc.next, names, nv)
    {
      ghost var rest := input.Rest();
      ItemsStep(xs, n - i, rest, ver);
      ProtectedStep(n - i, rest, ver);
      ghost var before, n0 := gc.cells, gc.next;
      assert list in gc.stack;
      var e;
      e, protectCount' := ReadSEXP(input, gc, ver, protectCount');
      if e.Err? { return Err(e.e), protectCount'; }
      ghost var x := Parse(rest, ver).value;
      assert list in gc.stack && Live(gc.cells, list);
      assert list in gc.cells && gc.cells[list] == before[list];
      ListSlotFilled(before, n0, gc.cells, gc.next, list, refs, names, i, e.v, xs.v, x.v, nv);
      refs := refs[i := e.v];
      gc.Store(list, Listing(refs, names));
      xs := Item(xs.v + [x.v], xs.nodes + x.nodes, xs.arrays + x.arrays);
    }
    assert refs[..n] == refs;
    ItemsEnds(xs, input.Rest(), whole, ver);
    ProtectedEnds(input.Rest(), ver);
    r := Val(());
  }

  method ReadList(input: InStream, gc: Heap, n: U32, ver: nat, protectCount: nat)
    returns (r: Result<Ref>, protectCount': nat)
    requires input.Valid() && gc.Valid()
    modifies input, gc
    ensures input.Valid() && gc.Valid()
    ensures Balanced(old(gc.next), old(gc.stack), protectCount, gc.next, gc.stack, protectCount',
                     ProtectedByList(n, old(input.Rest()), ver))
    ensures match ParseList(n, old(input.Rest()), ver)
            case Failed(e) => r == Err(e)
            case Got(x, rest) =>
              && r.Val? && input.Rest() == rest && protectCount' == protectCount + x.nodes
              && Grown(old(gc.cells), old(gc.next), old(gc.stack), gc.cells, gc.next, gc.stack, r.v, x.v, x.nodes)
    decreases |input.Rest()|, 2
  {
    hide ParseAll, ReadNames, Denotes;
    ghost var start := input.Rest();
    var list := gc.Alloc(Listing(seq(n, _ => NIL), NIL));
    gc.Protect(list);
    protectCount' := protectCount + 1;
    ghost var c1, n1 := gc.cells, gc.next;
    var names;
    names, protectCount' := ReadNamesInto(input, gc, list, n, ver, protectCount');
    if names.Err? { return Err(names.e), protectCount'; }
    EvolvesTrans(old(gc.cells), old(gc.next), c1, n1, list, gc.cells, gc.next);
    ghost var c2, n2 := gc.cells, gc.next;
    ghost var nv := ReadNames(n, start, ver).value;
    assert Live(gc.cells, list);
    var filled;
    filled, protectCount' := FillList(input, gc, list, names.v, n, ver, protectCount', nv);
    if filled.Err? { return Err(filled.e), protectCount'; }
    EvolvesTrans(old(gc.cells), old(gc.next), c2, n2, list, gc.cells, gc.next);
    ghost var es := ParseAll(n, ReadNames(n, start, ver).rest, ver).value.v;
    ListDenotes(gc.cells, gc.next, list, gc.cells[list].body.refs, names.v, es, nv);
    assert gc.stack[|old(gc.stack)|] == list;
    r := Val(list);
  }

  lemma ListDenotes(cells: Cells, next: Ref, list: Ref, refs: seq<Ref>, names: Ref, es: seq<SEXP>, nv: SEXP)
    requires FIRST <= list < next && list in cells && cells[list] == Listing(refs, names)
    requires Filled(cells, list, next, refs, es) && Denotes(cells, list + 1, next, names, nv)
    ensures Denotes(cells, list, next, list, Obj(List(es), nv, Null, Null, []))
  {
    assert DenotesData(cells, list + 1, next, ListBody(refs), List(es));
  }

  /** `Rf_setAttrib` with R_DimSymbol, which drops old dimnames, then with R_DimNamesSymbol. */
  method AttachDims(gc: Heap, value: Ref, dim: Ref, dimnames: Ref, ghost n0: Ref, ghost n1: Ref, ghost n2: Ref,
                    ghost v: SEXP, ghost d: SEXP, ghost dn: SEXP)
    requires gc.Valid() && n0 <= n1 <= n2
    requires v.Obj? && value in gc.stack && (dim == NIL || dim in gc.stack) && (dimnames == NIL || dimnames in gc.stack)
    requires Denotes(gc.cells, n2, gc.next, value, v)
    requires Denotes(gc.cells, n0, n1, dim, d) && Denotes(gc.cells, n1, n2, dimnames, dn)
    modifies gc`cells, gc`stack
    ensures gc.Valid() && gc.stack == old(gc.stack)
    ensures Evolves(old(gc.cells), n2, gc.cells, gc.next)
    ensures Denotes(gc.cells, n0, gc.next, value, WithDim(v, d, dn))
  {
    hide DenotesData;
    ghost var c0 := gc.cells;
    gc.PrepareAttrib(value, dim);
    ghost var c1 := gc.cells;
    gc.Store(value, gc.cells[value].(dim := dim, dimnames := NIL));
    gc.PrepareAttrib(value, dimnames);
    gc.Store(value, gc.cells[value].(dimnames := dimnames));
    KeptThenAttached(c0, c1, gc.cells, n0, n1, n2, gc.next, value, v, dim, d, dimnames, dn);
  }

  lemma KeptThenAttached(c0: Cells, c1: Cells, c2: Cells, n0: Ref, n1: Ref, n2: Ref, n3: Ref,
                         value: Ref, v: SEXP, dim: Ref, d: SEXP, dimnames: Ref, dn: SEXP)
    requires v.Obj? && n0 <= n1 <= n2 && Closed(c2)
    requires Denotes(c0, n2, n3, value, v) && Denotes(c0, n0, n1, dim, d) && Denotes(c0, n1, n2, dimnames, dn)
    requires value in c0 && c0[value].VectorCell? && value in c2 && Live(c2, dim) && Live(c2, dimnames)
    requires c2[value] == c0[value].(dim := dim, dimnames := dimnames)
    requires forall x :: x in c2 && x != value && x < n3 ==> x in c0 && c2[x] == c0[x]
    ensures Denotes(c2, n0, n3, value, WithDim(v, d, dn))
  {
    hide DenotesData;
    DenotesLater(c0, c2, n0, n1, dim, d);
    DenotesLater(c0, c2, n1, n2, dimnames, dn);
    var cell := c2[value];
    assert forall k :: k in cell.Kids() ==> Live(c2, k);
    assert cell.names in cell.Kids();
    DenotesLater(c0, c2, value + 1, n3, cell.names, v.names);
    DataLater(c0, c2, value + 1, n3, cell.body, v.data);
    DenotesBeside(c2, n0, n1, c2, n0, value, dim, d);
    DenotesBeside(c2, n1, n2, c2, n0, value, dimnames, dn);
  }

  lemma DataLater(h: Cells, h': Cells, lo: Ref, hi: Ref, body: Body, data: Data)
    requires DenotesData(h, lo, hi, body, data) && Closed(h') && forall k <- body.Refs() :: Live(h', k)
    requires forall x :: x in h && lo <= x < hi && x in h' ==> h'[x] == h[x]
    ensures DenotesData(h', lo, hi, body, data)
  {
    hide Denotes;
    if data.List? {
      forall i | 0 <= i < |data.elems|
        ensures Denotes(h', lo, hi, body.refs[i], data.elems[i])
      {
        assert body.refs[i] in body.Refs();
        DenotesLater(h, h', lo, hi, body.refs[i], data.elems[i]);
      }
    } else if data.Strings? {
      assert forall i | 0 <= i < |body.refs| :: body.refs[i] in body.Refs();
      DenotesStringsLater(h, h', lo, hi, body.refs, data.strs);
    }
  }

  lemma DenotesAfter(h: Cells, next: Ref, h': Cells, next': Ref, lo: Ref, hi: Ref, r: Ref, v: SEXP)
    requires Denotes(h, lo, hi, r, v) && Evolves(h, next, h', next') && hi <= next && Closed(h') && Live(h', r)
    ensures Denotes(h', lo, hi, r, v) && next <= next'
  {
    DenotesLater(h, h', lo, hi, r, v);
  }

  method ReadArray(input: InStream, gc: Heap, ver: nat, protectCount: nat)
    returns (r: Result<Ref>, protectCount': nat)
    requires input.Valid() && gc.Valid()
    modifies input, gc
    ensures input.Valid() && gc.Valid()
    ensures Balanced(old(gc.next), old(gc.stack), protectCount, gc.next, gc.stack, protectCount',
                     ProtectedByArray(old(input.Rest()), ver))
    ensures match ParseArray(old(input.Rest()), ver)
            case Failed(e) => r == Err(e)
            case Got(x, rest) =>
              && r.Val? && input.Rest() == rest && protectCount' == protectCount + x.nodes
              && Grown(old(gc.cells), old(gc.next), old(gc.stack), gc.cells, gc.next, gc.stack, r.v, x.v, x.nodes)
    decreases |input.Rest()|, 1
  {
    hide Parse, Denotes, CellsAccept, ArrayAccepted, Protected, Balanced, Evolves;
    ghost var s0, n0, st0 := input.Rest(), gc.next, gc.stack;
    var dims;
    dims, protectCount' := ReadSEXP(input, gc, ver, protectCount);
    if dims.Err? { return dims, protectCount'; }
    ghost var c1, n1, x1, s1 := gc.cells, gc.next, Parse(s0, ver).value, input.Rest();
    ghost var st1, pc1 := gc.stack, protectCount';
    var dimnames;
    dimnames, protectCount' := ReadSEXP(input, gc, ver, protectCount');
    BalancedTrans(n0, st0, protectCount, n1, st1, pc1, Protected(s0, ver),
                  gc.next, gc.stack, protectCount', Protected(s1, ver));
    if dimnames.Err? { return dimnames, protectCount'; }
    ghost var c2, n2, x2, s2 := gc.cells, gc.next, Parse(s1, ver).value, input.Rest();
    ghost var st2, pc2 := gc.stack, protectCount';
    assert n0 <= n1 by { BalancedParts(n0, st0, protectCount, n1, st1, pc1, Protected(s0, ver)); }
    DenotesAfter(c1, n1, c2, n2, n0, n1, dims.v, x1.v);
    var value;
    value, protectCount' := ReadSEXP(input, gc, ver, protectCount');
    BalancedTrans(n0, st0, protectCount, n2, st2, pc2, Protected(s0, ver) + Protected(s1, ver),
                  gc.next, gc.stack, protectCount', Protected(s2, ver));
    if value.Err? { return value, protectCount'; }
    ghost var x3 := Parse(s2, ver).value;
    DenotesAfter(c2, n2, gc.cells, gc.next, n0, n1, dims.v, x1.v);
    DenotesAfter(c2, n2, gc.cells, gc.next, n1, n2, dimnames.v, x2.v);
    AcceptanceAgrees(gc.cells, n2, gc.next, value.v, x3.v, n0, n1, dims.v, x1.v, n1, n2, dimnames.v, x2.v);
    var accepted := CellsAccept(gc.cells, value.v, dims.v, dimnames.v);
    if !accepted { return Err(ArrayRejected), protectCount'; }
    EvolvesTrans(old(gc.cells), n0, c1, n1, n1, c2, n2);
    ghost var c3, n3 := gc.cells, gc.next;
    EvolvesTrans(old(gc.cells), n0, c2, n2, n2, c3, n3);
    r := value;
    DenotedLength(c3, n2, n3, value.v, x3.v);
    if value.v != NIL {
      AttachDims(gc, value.v, dims.v, dimnames.v, n0, n1, n2, x3.v, x1.v, x2.v);
      EvolvesTrans(old(gc.cells), n0, c3, n3, n2, gc.cells, gc.next);
    } else {
      NullDenotes(gc.cells, n0, gc.next);
    }
  }

  lemma NullDenotes(cells: Cells, lo: Ref, hi: Ref)
    ensures Denotes(cells, lo, hi, NIL, Null)
  {
  }

  /** The reader itself: it builds in the heap exactly the value that the parse assigns to the
      bytes, and leaves on the stack one protected object for each vector it allocated. With or
      without an error, the count says how many objects were added to the stack. */
  method ReadSEXP(input: InStream, gc: Heap, ver: nat, protectCount: nat)
    returns (r: Result<Ref>, protectCount': nat)
    requires input.Valid() && gc.Valid()
    modifies input, gc
    ensures input.Valid() && gc.Valid()
    ensures Balanced(old(gc.next), old(gc.stack), protectCount, gc.next, gc.stack, protectCount',
                     Protected(old(input.Rest()), ver))
    ensures match Parse(old(input.Rest()), ver)
            case Failed(e) => r == Err(e)
            case Got(x, rest) =>
              && r.Val? && input.Rest() == rest && protectCount' == protectCount + x.nodes
              && Grown(old(gc.cells), old(gc.next), old(gc.stack), gc.cells, gc.next, gc.stack, r.v, x.v, x.nodes)
    decreases |input.Rest()|, 0
  {
    hide ReadVector, ParseList, ParseArray, Denotes;
    protectCount' := protectCount;
    var tag := input.ReadU32();
    if tag.Err? { return Err(tag.e), protectCount; }
    if tag.v == K_ARRAY {
      if ver < 3 { return Err(ArrayNeedsVersion3), protectCount; }
      r, protectCount' := ReadArray(input, gc, ver, protectCount);
      return;
    }
    if tag.v == K_NIL {
      NullDenotes(gc.cells, gc.next, gc.next);
      return Val(NIL), protectCount;
    }
    if tag.v > K_ARRAY { return Err(UnknownTag), protectCount; }
    var n := input.ReadU32();
    if n.Err? { return Err(n.e), protectCount; }
    if tag.v == K_LIST {
      r, protectCount' := ReadList(input, gc, n.v, ver, protectCount);
    } else if tag.v == K_REAL {
      r, protectCount' := ReadRealVector(input, gc, n.v, protectCount);
    } else if tag.v == K_STRING {
      r, protectCount' := ReadStringVector(input, gc, n.v, protectCount);
    } else {
      r, protectCount' := ReadIntVector(input, gc, n.v, tag.v == K_LOGICAL, protectCount);
    }
  }

  lemma ParseFileSteps(file: seq<Byte>)
    ensures match FileVersion(file)
            case Failed(e) => ParseFile(file) == Failed(e)
            case Got(version, rest) => ParseFile(file) == Parse(rest, version)
    ensures match FileVersion(file)
            case Failed(_) => ProtectedByFile(file) == 0
            case Got(version, rest) => ProtectedByFile(file) == Protected(rest, version)
  {
    hide FileVersion, Parse, Protected;
  }

  lemma GrownParts(cells: Cells, next: Ref, stack: seq<Ref>,
                   cells': Cells, next': Ref, stack': seq<Ref>, r: Ref, v: SEXP, nodes: nat)
    requires Grown(cells, next, stack, cells', next', stack', r, v, nodes)
    ensures nodes <= |stack'| && stack'[..|stack'| - nodes] == stack
    ensures Evolves(cells, next, cells', next') && Denotes(cells', next, next', r, v)
  {
  }

  method ReadVersion(input: InStream) returns (r: Result<U32>)
    requires input.Valid()
    modifies input
    ensures input.Valid()
    ensures match FileVersion(old(input.Rest()))
            case Failed(e) => r == Err(e)
            case Got(version, rest) => r == Val(version) && input.Rest() == rest
  {
    hide Word32;
    var magic := input.ReadU32();
    if magic.Err? { return magic; }
    if magic.v != MAGIC { return Err(BadMagic); }
    r := input.ReadU32();
    if r.Val? && (r.v < MIN_READ_VERSION || r.v > VERSION) { r := Err(BadVersion); }
  }

  /** `unserializeSEXP`: the header checks, one value, and the stack back at its entry height. After
      an error the stack keeps what was protected until then: it is as it was if and only if the file
      parses or the error came before the first allocation. */
  method Unserialize(file: seq<Byte>, gc: Heap) returns (r: Result<Ref>)
    requires gc.Valid()
    modifies gc
    ensures gc.Valid()
    ensures ParseFile(file).Failed? ==>
              && r == Err(ParseFile(file).error)
              && old(gc.stack) <= gc.stack && |gc.stack| == |old(gc.stack)| + ProtectedByFile(file)
    ensures ParseFile(file).Got? ==>
              && r.Val? && gc.stack == old(gc.stack)
              && Evolves(old(gc.cells), old(gc.next), gc.cells, gc.next)
              && Denotes(gc.cells, old(gc.next), gc.next, r.v, ParseFile(file).value.v)
    ensures gc.next == old(gc.next) <==> ProtectedByFile(file) == 0
    ensures gc.stack == old(gc.stack) <==> ParseFile(file).Got? || gc.next == old(gc.next)
  {
    ParseFileSteps(file);
    hide *;
    ghost var c0, n0, s0 := gc.cells, gc.next, gc.stack;
    var input := new InStream(file);
    var version := ReadVersion(input);
    if version.Err? { return Err(version.e); }
    var protectCount;
    r, protectCount := ReadSEXP(input, gc, version.v, 0);
    BalancedParts(n0, s0, 0, gc.next, gc.stack, protectCount, ProtectedByFile(file));
    if r.Err? { return; }
    GrownParts(c0, n0, s0, gc.cells, gc.next, gc.stack, r.v, ParseFile(file).value.v, protectCount);
    gc.Unprotect(protectCount);
  }

  lemma BalancedTrans(next: Ref, stack: seq<Ref>, count: nat, next': Ref, stack': seq<Ref>, count': nat, n: nat,
                      next'': Ref, stack'': seq<Ref>, count'': nat, m: nat)
    requires Balanced(next, stack, count, next', stack', count', n)
    requires Balanced(next', stack', count', next'', stack'', count'', m)
    ensures Balanced(next, stack, count, next'', stack'', count'', n + m)
  {
  }

  lemma BalancedParts(next: Ref, stack: seq<Ref>, count: nat, next': Ref, stack': seq<Ref>, count': nat, n: nat)
    requires Balanced(next, stack, count, next', stack', count', n)
    ensures stack <= stack' && |stack'| == |stack| + n && next <= next' && (next == next' <==> n == 0)
  {
  }

  /** A file cut off behind the length of a logical vector of one element: the read fails and leaves
      one vector on the stack. */
  lemma TruncatedFileLeavesOne()
    ensures var file := PutU32(MAGIC) + PutU32(VERSION) + Header(K_LOGICAL, 1);
            ParseFile(file) == Failed(ShortRead) && ProtectedByFile(file) == 1
  {
    hide PutU32, GetU32;
    var body := Header(K_LOGICAL, 1);
    assert PutU32(MAGIC) + PutU32(VERSION) + body == PutU32(MAGIC) + (PutU32(VERSION) + body);
    WordRoundTrip(MAGIC, PutU32(VERSION) + body);
    WordRoundTrip(VERSION, body);
    WordRoundTrip(K_LOGICAL, PutU32(1));
    assert PutU32(1) == PutU32(1) + [];
    WordRoundTrip(1, []);
    ParseFileSteps(PutU32(MAGIC) + PutU32(VERSION) + body);
  }
}
