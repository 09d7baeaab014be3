/** What reading back written bytes yields: the round trip and its exact range, and version rules. */
module RoundTrip {
  import opened Bytes
  import opened RValues
  import opened Format

  lemma ReadWord(n: U32, tail: seq<Byte>)
    ensures Word32(PutU32(n) + tail) == Got(n, tail)
  {
    WordRoundTrip(n, tail);
  }

  lemma {:induction false} ReadEncodedInts(xs: seq<I32>, tail: seq<Byte>)
    ensures ReadInts(|xs|, EncodeInts(xs) + tail) == Got(xs, tail)
  {
    if xs == [] {
      assert EncodeInts(xs) + tail == tail;
    } else {
      var rest := EncodeInts(xs[1..]) + tail;
      assert EncodeInts(xs) + tail == PutU32(Word(xs[0])) + rest;
      ReadWord(Word(xs[0]), rest);
      ReadEncodedInts(xs[1..], tail);
      assert [xs[0]] + xs[1..] == xs;
    }
  }

  lemma {:induction false} SplitEncodedReals(xs: seq<Double>)
    ensures Split8(EncodeReals(xs)) == xs
  {
    if xs != [] {
      var bs := EncodeReals(xs);
      assert bs[..8] == xs[0] && bs[8..] == EncodeReals(xs[1..]);
      SplitEncodedReals(xs[1..]);
    }
  }

  lemma ReadEncodedReals(xs: seq<Double>, tail: seq<Byte>)
    ensures ReadReals(|xs|, EncodeReals(xs) + tail) == Got(xs, tail)
  {
    var bs := EncodeReals(xs) + tail;
    assert bs[..8 * |xs|] == EncodeReals(xs) && bs[8 * |xs|..] == tail;
    SplitEncodedReals(xs);
  }

  lemma ReadEncodedString(s: RString, tail: seq<Byte>)
    ensures ReadString(EncodeString(s) + tail) == Got(s, tail)
  {
    match s
    case NaString => ReadWord(Word(-1), tail);
    case Str(cs) =>
      assert EncodeString(s) + tail == PutU32(Word(|cs|)) + (cs + tail);
      ReadWord(Word(|cs|), cs + tail);
      assert (cs + tail)[..|cs|] == cs && (cs + tail)[|cs|..] == tail;
  }

  lemma {:induction false} ReadEncodedStrings(ss: seq<RString>, tail: seq<Byte>)
    ensures ReadStrings(|ss|, EncodeStrings(ss) + tail) == Got(ss, tail)
  {
    if ss == [] {
      assert EncodeStrings(ss) + tail == tail;
    } else {
      var rest := EncodeStrings(ss[1..]) + tail;
      assert EncodeStrings(ss) + tail == EncodeString(ss[0]) + rest;
      ReadEncodedString(ss[0], rest);
      ReadEncodedStrings(ss[1..], tail);
      assert [ss[0]] + ss[1..] == ss;
    }
  }

  lemma ReadEncodedNames(v: SEXP, ver: nat, tail: seq<Byte>)
    requires v.Obj? && v.data.List?
    ensures ReadNames(|v.data.elems|, EncodeNames(v, ver) + tail, ver) == Got(Bare(v, ver).names, tail)
  {
    if ver < 2 {
      assert EncodeNames(v, ver) + tail == tail;
    } else if HasNames(v) {
      var ss := v.names.data.strs;
      assert EncodeNames(v, ver) + tail == PutU32(1) + (EncodeStrings(ss) + tail);
      ReadWord(1, EncodeStrings(ss) + tail);
      ReadEncodedStrings(ss, tail);
    } else {
      ReadWord(0, tail);
    }
  }

  lemma ReadEncodedVector(data: Data, tail: seq<Byte>)
    requires !data.Foreign? && !data.List?
    ensures ReadVector(Tag(data), data.Length(), Payload(data) + tail) == Got(data, tail)
  {
    match data
    case Logicals(xs) => ReadEncodedInts(xs, tail);
    case Integers(xs) => ReadEncodedInts(xs, tail);
    case Reals(xs) => ReadEncodedReals(xs, tail);
    case Strings(ss) => ReadEncodedStrings(ss, tail);
  }

  /** One step of the reader on each of the three kinds of item. */
  lemma ParseNil(tail: seq<Byte>, ver: nat)
    ensures Parse(PutU32(K_NIL) + tail, ver) == Got(Item(Null, 0, 0), tail)
  {
    ReadWord(K_NIL, tail);
  }

  lemma ParseHeaded(tag: U32, n: nat, body: seq<Byte>, ver: nat)
    requires K_LOGICAL <= tag <= K_LIST && n < 0x1_0000_0000
    ensures Parse(Header(tag, n) + body, ver) ==
            if tag == K_LIST then ParseList(n, body, ver) else
            match ReadVector(tag, n, body)
            case Failed(e) => Failed(e)
            case Got(data, rest) => Got(Item(Plain(data), 1, 0), rest)
  {
    assert Header(tag, n) + body == PutU32(tag) + (PutU32(n) + body);
    ReadWord(tag, PutU32(n) + body);
    ReadWord(n, body);
  }

  lemma ParseTagged(body: seq<Byte>, ver: nat)
    ensures Parse(PutU32(K_ARRAY) + body, ver) ==
            if ver < 3 then Failed(ArrayNeedsVersion3) else ParseArray(body, ver)
  {
    ReadWord(K_ARRAY, body);
  }

  lemma ParseArrayFrom(bs: seq<Byte>, r1: seq<Byte>, r2: seq<Byte>, r3: seq<Byte>, ver: nat,
                       dim: Item<SEXP>, dimnames: Item<SEXP>, value: Item<SEXP>, result: Read<Item<SEXP>>)
    requires Parse(bs, ver) == Got(dim, r1)
    requires Parse(r1, ver) == Got(dimnames, r2)
    requires Parse(r2, ver) == Got(value, r3)
    requires ArrayAccepted(value.v, dim.v, dimnames.v)
    requires result == Got(Item(WithDim(value.v, dim.v, dimnames.v),
                                dim.nodes + dimnames.nodes + value.nodes,
                                1 + dim.arrays + dimnames.arrays + value.arrays), r3)
    ensures ParseArray(bs, ver) == result
  {
    hide Parse;
  }

  /** The reader's answer on the encoding of a whole value, for any version. */
  ghost function Expected(v: SEXP, ver: nat, tail: seq<Byte>): Read<Item<SEXP>> {
    if ver >= 3 || ArrayFree(v) then Got(Item(Project(v, ver), Nodes(v), Arrays(v)), tail)
    else Failed(ArrayNeedsVersion3)
  }

  ghost function ExpectedAll(vs: seq<SEXP>, ver: nat, tail: seq<Byte>): Read<Item<seq<SEXP>>> {
    if ver >= 3 || AllArrayFree(vs) then Got(Item(ProjectAll(vs, ver), NodesAll(vs), ArraysAll(vs)), tail)
    else Failed(ArrayNeedsVersion3)
  }

  /** The same for the part written by `writeValue`, which never wraps `v` itself. */
  ghost function ExpectedValue(v: SEXP, ver: nat, tail: seq<Byte>): Read<Item<SEXP>> {
    if v.Null? then Got(Item(Null, 0, 0), tail)
    else if !v.data.List? then Got(Item(Bare(v, ver), 1, 0), tail)
    else if ver >= 3 || AllArrayFree(v.data.elems) then
      Got(Item(Bare(v, ver), 1 + NodesAll(v.data.elems), ArraysAll(v.data.elems)), tail)
    else Failed(ArrayNeedsVersion3)
  }

  lemma {:induction false} ParseEncodedValue(v: SEXP, ver: nat, tail: seq<Byte>)
    requires Supported(v) && InRange(v) && Legal(v)
    ensures Parse(EncodeValue(v, ver) + tail, ver) == ExpectedValue(v, ver, tail)
    decreases v, 0, 1
  {
    if v.Null? {
      ParseNil(tail, ver);
    } else if v.data.List? {
      ParseEncodedList(v, ver, tail);
    } else {
      var head, body := Header(Tag(v.data), v.data.Length()), Payload(v.data);
      assert EncodeValue(v, ver) + tail == head + (body + tail);
      ParseHeaded(Tag(v.data), v.data.Length(), body + tail, ver);
      ReadEncodedVector(v.data, tail);
    }
  }

  lemma {:induction false} ParseEncodedList(v: SEXP, ver: nat, tail: seq<Byte>)
    requires Supported(v) && InRange(v) && Legal(v) && v.Obj? && v.data.List?
    ensures Parse(EncodeValue(v, ver) + tail, ver) == ExpectedValue(v, ver, tail)
    decreases v, 0, 0
  {
    hide Parse, ParseAll, Encode, EncodeAll;
    var es := v.data.elems;
    var head, names, elems := Header(K_LIST, |es|), EncodeNames(v, ver), EncodeAll(es, ver);
    assert EncodeValue(v, ver) + tail == head + (names + (elems + tail));
    ParseHeaded(K_LIST, |es|, names + (elems + tail), ver);
    ReadEncodedNames(v, ver, elems + tail);
    ParseEncodedAll(es, ver, tail);
  }

  lemma {:induction false} ParseEncodedAll(vs: seq<SEXP>, ver: nat, tail: seq<Byte>)
    requires AllSupported(vs) && AllInRange(vs) && AllLegal(vs)
    ensures ParseAll(|vs|, EncodeAll(vs, ver) + tail, ver) == ExpectedAll(vs, ver, tail)
    decreases vs, 0
  {
    if vs == [] {
      assert EncodeAll(vs, ver) + tail == tail;
    } else {
      var rest := EncodeAll(vs[1..], ver) + tail;
      assert EncodeAll(vs, ver) + tail == Encode(vs[0], ver) + rest;
      ParseEncoded(vs[0], ver, rest);
      ParseEncodedAll(vs[1..], ver, tail);
      AllFromParts(vs, ver, Encode(vs[0], ver) + rest, rest, tail);
    }
  }

  lemma AcceptedAfterProjection(v: SEXP, ver: nat)
    requires v.Obj? && v.dim.Obj? && ArrayAccepted(v, v.dim, v.dimnames)
    ensures ArrayAccepted(Bare(v, ver), Project(v.dim, ver), Project(v.dimnames, ver))
  {
    ProjectedData(v, ver);
    ProjectedData(v.dim, ver);
    if v.dimnames.Obj? {
      ProjectedData(v.dimnames, ver);
      var es := v.dimnames.data.elems;
      var ps := ProjectAll(es, ver);
      forall i | 0 <= i < |es|
        ensures ps[i].Null? || ps[i].data.Length() == v.dim.data.ints[i]
      {
        ProjectAllAt(es, ver, i);
        assert es[i].Null? || es[i].data.Length() == v.dim.data.ints[i];
        if es[i].Obj? { ProjectedData(es[i], ver); }
      }
    }
  }

  lemma EncodedArray(v: SEXP, ver: nat, tail: seq<Byte>)
    requires Supported(v) && v.Obj? && v.dim.Obj?
    ensures Encode(v, ver) + tail == PutU32(K_ARRAY) +
            (Encode(v.dim, ver) + (Encode(v.dimnames, ver) + (EncodeValue(v, ver) + tail)))
  {
  }

  lemma ExpectedArray(v: SEXP, ver: nat, r1: seq<Byte>, r2: seq<Byte>, tail: seq<Byte>)
    requires v.Obj? && v.dim.Obj? && ver >= 3
    ensures Expected(v.dim, ver, r1).Got? && Expected(v.dimnames, ver, r2).Got? && ExpectedValue(v, ver, tail).Got?
    ensures var dim, dimnames, value := Expected(v.dim, ver, r1).value, Expected(v.dimnames, ver, r2).value,
                                        ExpectedValue(v, ver, tail).value;
            && dim.v == Project(v.dim, ver) && dimnames.v == Project(v.dimnames, ver) && value.v == Bare(v, ver)
            && Expected(v, ver, tail) == Got(Item(WithDim(value.v, dim.v, dimnames.v),
                                                  dim.nodes + dimnames.nodes + value.nodes,
                                                  1 + dim.arrays + dimnames.arrays + value.arrays), tail)
  {
  }

  lemma ArrayFromParts(v: SEXP, ver: nat, r0: seq<Byte>, r1: seq<Byte>, r2: seq<Byte>, tail: seq<Byte>)
    requires v.Obj? && v.dim.Obj? && ver >= 3 && ArrayAccepted(v, v.dim, v.dimnames)
    requires Parse(r0, ver) == Expected(v.dim, ver, r1)
    requires Parse(r1, ver) == Expected(v.dimnames, ver, r2)
    requires Parse(r2, ver) == ExpectedValue(v, ver, tail)
    ensures ParseArray(r0, ver) == Expected(v, ver, tail)
  {
    hide Parse, ParseArray, Bare, Project, Nodes, Arrays;
    AcceptedAfterProjection(v, ver);
    ExpectedArray(v, ver, r1, r2, tail);
    ParseArrayFrom(r0, r1, r2, tail, ver, Expected(v.dim, ver, r1).value, Expected(v.dimnames, ver, r2).value,
                   ExpectedValue(v, ver, tail).value, Expected(v, ver, tail));
  }

  lemma AllFromParts(vs: seq<SEXP>, ver: nat, r0: seq<Byte>, r1: seq<Byte>, tail: seq<Byte>)
    requires vs != []
    requires Parse(r0, ver) == Expected(vs[0], ver, r1)
    requires ParseAll(|vs| - 1, r1, ver) == ExpectedAll(vs[1..], ver, tail)
    ensures ParseAll(|vs|, r0, ver) == ExpectedAll(vs, ver, tail)
  {
    hide Parse;
  }

  /** Round trip at every version, with the bytes behind the value left untouched. */
  lemma {:induction false} ParseEncoded(v: SEXP, ver: nat, tail: seq<Byte>)
    requires Supported(v) && InRange(v) && Legal(v)
    ensures Parse(Encode(v, ver) + tail, ver) == Expected(v, ver, tail)
    decreases v, 2
  {
    hide Parse, EncodeValue;
    if v.Null? || v.dim.Null? {
      ParseEncodedValue(v, ver, tail);
    } else {
      EncodedArray(v, ver, tail);
      ParseTagged(Encode(v.dim, ver) + (Encode(v.dimnames, ver) + (EncodeValue(v, ver) + tail)), ver);
      if ver >= 3 {
        ParseEncodedArray(v, ver, tail);
      }
    }
  }

  lemma {:induction false} ParseEncodedArray(v: SEXP, ver: nat, tail: seq<Byte>)
    requires Supported(v) && InRange(v) && Legal(v) && v.Obj? && v.dim.Obj? && ver >= 3
    ensures ParseArray(Encode(v.dim, ver) + (Encode(v.dimnames, ver) + (EncodeValue(v, ver) + tail)), ver)
            == Expected(v, ver, tail)
    decreases v, 1
  {
    var r2 := EncodeValue(v, ver) + tail;
    var r1 := Encode(v.dimnames, ver) + r2;
    ParseEncoded(v.dim, ver, r1);
    ParseEncoded(v.dimnames, ver, r2);
    ParseEncodedValue(v, ver, tail);
    ArrayFromParts(v, ver, Encode(v.dim, ver) + r1, r1, r2, tail);
  }

  // ---------- The exact range of the round trip ----------

  /** Whatever the bytes, a value that was read has only lengths that fit 32 bits, only types the
      writer knows, and dims that R accepts: it can be written again. */
  lemma {:induction false} ReadIsWritable(bs: seq<Byte>, ver: nat)
    requires Parse(bs, ver).Got?
    ensures var v := Parse(bs, ver).value.v; InRange(v) && Supported(v) && Legal(v)
    decreases |bs|, 0
  {
    var body := Word32(bs).rest;
    if Word32(bs).value == K_ARRAY {
      var dim := Parse(body, ver);
      var dimnames := Parse(dim.rest, ver);
      ReadIsWritable(body, ver);
      ReadIsWritable(dim.rest, ver);
      ReadIsWritable(dimnames.rest, ver);
    } else if Word32(bs).value == K_LIST {
      var n, rest := Word32(body).value, Word32(body).rest;
      ReadAllIsWritable(n, ReadNames(n, rest, ver).rest, ver);
    }
  }

  lemma {:induction false} ReadAllIsWritable(n: nat, bs: seq<Byte>, ver: nat)
    requires ParseAll(n, bs, ver).Got?
    ensures var vs := ParseAll(n, bs, ver).value.v; AllInRange(vs) && AllSupported(vs) && AllLegal(vs)
    decreases |bs|, 1
  {
    hide Parse, InRange, Supported, Legal;
    if n > 0 {
      var x := Parse(bs, ver);
      ReadIsWritable(bs, ver);
      ReadAllIsWritable(n - 1, x.rest, ver);
      var xs := ParseAll(n, bs, ver).value.v;
      assert xs[1..] == ParseAll(n - 1, x.rest, ver).value.v;
    }
  }

  lemma ProjectedArray(value: SEXP, dim: SEXP, dimnames: SEXP)
    requires Project(value, VERSION) == value && Project(dim, VERSION) == dim && Project(dimnames, VERSION) == dimnames
    ensures Project(WithDim(value, dim, dimnames), VERSION) ==
            if dim.Null? then WithDim(value, Null, Null) else WithDim(value, dim, dimnames)
  {
    hide ProjectAll;
    if value.Obj? {
      ProjectedData(value, VERSION);
      var v := WithDim(value, dim, dimnames);
      assert Bare(v, VERSION) == Bare(value, VERSION);
      assert Bare(value, VERSION) == value.(dim := Null, dimnames := Null);
    }
  }

  /** A value that was read has nothing that a file does not keep, arrays included. */
  lemma {:induction false} ReadIsItsProjection(bs: seq<Byte>, ver: nat)
    requires Parse(bs, ver).Got?
    ensures Project(Parse(bs, ver).value.v, VERSION) == Parse(bs, ver).value.v
    decreases |bs|, 0
  {
    var body := Word32(bs).rest;
    if Word32(bs).value == K_ARRAY {
      var dim := Parse(body, ver);
      var dimnames := Parse(dim.rest, ver);
      var value := Parse(dimnames.rest, ver);
      ReadIsItsProjection(body, ver);
      ReadIsItsProjection(dim.rest, ver);
      ReadIsItsProjection(dimnames.rest, ver);
      hide Project;
      ProjectedArray(value.value.v, dim.value.v, dimnames.value.v);
    } else if Word32(bs).value == K_LIST {
      var n, rest := Word32(body).value, Word32(body).rest;
      ReadAllIsItsProjection(n, ReadNames(n, rest, ver).rest, ver);
    }
  }

  lemma {:induction false} ReadAllIsItsProjection(n: nat, bs: seq<Byte>, ver: nat)
    requires ParseAll(n, bs, ver).Got?
    ensures ProjectAll(ParseAll(n, bs, ver).value.v, VERSION) == ParseAll(n, bs, ver).value.v
    decreases |bs|, 1
  {
    hide Parse, Project;
    if n > 0 {
      var x := Parse(bs, ver);
      ReadIsItsProjection(bs, ver);
      ReadAllIsItsProjection(n - 1, x.rest, ver);
      var xs := ParseAll(n, bs, ver).value.v;
      assert xs[1..] == ParseAll(n - 1, x.rest, ver).value.v;
    }
  }

  /** For any accepted bytes, of any version, writing the value and reading it again gives that
      very value and leaves what follows. */
  lemma ReadSurvivesRewriting(bs: seq<Byte>, ver: nat, tail: seq<Byte>)
    requires Parse(bs, ver).Got?
    ensures var v := Parse(bs, ver).value.v;
            && Supported(v)
            && Parse(Encode(v, VERSION) + tail, VERSION) == Got(Item(v, Nodes(v), Arrays(v)), tail)
            && ParseFile(FileBytes(v)) == Got(Item(v, Nodes(v), Arrays(v)), [])
  {
    hide Parse, Encode, Project, ParseFile, FileBytes;
    var v := Parse(bs, ver).value.v;
    ReadIsWritable(bs, ver);
    ReadIsItsProjection(bs, ver);
    ParseEncoded(v, VERSION, tail);
    FileRoundTrip(v);
  }

  lemma {:induction false} BareInRange(v: SEXP, ver: nat)
    ensures InRange(Bare(v, ver)) ==
            (v.Obj? ==> v.data.Length() < 0x1_0000_0000 && (v.data.List? ==> AllInRange(v.data.elems)))
    decreases v, 1
  {
    if v.Obj? && v.data.List? {
      ProjectAllInRange(v.data.elems, ver);
    }
  }

  lemma {:induction false} ProjectInRange(v: SEXP, ver: nat)
    ensures InRange(Project(v, ver)) == InRange(v)
    decreases v, 2
  {
    BareInRange(v, ver);
    if v.Obj? && v.dim.Obj? {
      ProjectInRange(v.dim, ver);
      ProjectInRange(v.dimnames, ver);
    }
  }

  lemma {:induction false} ProjectAllInRange(vs: seq<SEXP>, ver: nat)
    ensures AllInRange(ProjectAll(vs, ver)) == AllInRange(vs)
    decreases vs, 0
  {
    if vs != [] {
      ProjectInRange(vs[0], ver);
      ProjectAllInRange(vs[1..], ver);
      assert ProjectAll(vs, ver)[1..] == ProjectAll(vs[1..], ver);
    }
  }

  /** A value survives the current format, whatever follows it, exactly when its lengths fit. */
  lemma RoundTripExactly(v: SEXP, tail: seq<Byte>)
    requires Supported(v) && Legal(v)
    ensures InRange(v) <==>
            var r := Parse(Encode(v, VERSION) + tail, VERSION);
            r.Got? && r.value.v == Project(v, VERSION) && r.rest == tail
  {
    var bs := Encode(v, VERSION) + tail;
    if InRange(v) {
      ParseEncoded(v, VERSION, tail);
    } else if Parse(bs, VERSION).Got? && Parse(bs, VERSION).value.v == Project(v, VERSION) {
      ReadIsWritable(bs, VERSION);
      ProjectInRange(v, VERSION);
      assert false;
    }
  }

  /** One such value: a logical vector of 2^32 elements is read back as an empty one. */
  lemma OverlongVectorIsLost(v: SEXP)
    requires v.Obj? && v.data.Logicals? && |v.data.ints| == 0x1_0000_0000 && v.dim.Null?
    ensures var r := Parse(Encode(v, VERSION), VERSION);
            r.Got? && r.value.v == Plain(Logicals([])) && r.rest == EncodeInts(v.data.ints)
  {
    var body := EncodeInts(v.data.ints);
    assert Encode(v, VERSION) == PutU32(K_LOGICAL) + (PutU32(0) + body);
    ReadWord(K_LOGICAL, PutU32(0) + body);
    ReadWord(0, body);
  }

  /** A written file is read back as the projection of the value. */
  lemma FileRoundTrip(v: SEXP)
    requires Supported(v) && InRange(v) && Legal(v)
    ensures ParseFile(FileBytes(v)) == Got(Item(Project(v, VERSION), Nodes(v), Arrays(v)), [])
  {
    var body := Encode(v, VERSION);
    assert FileBytes(v) == PutU32(MAGIC) + (PutU32(VERSION) + body);
    ReadWord(MAGIC, PutU32(VERSION) + body);
    ReadWord(VERSION, body);
    assert body == body + [];
    ParseEncoded(v, VERSION, []);
  }

  /** Null and vectors without attributes, lists excepted, are kept as they are. */
  lemma SimpleValue(x: SEXP)
    requires x.Obj? ==> x == Plain(x.data) && !x.data.List? && !x.data.Foreign? && x.data.Length() < 0x1_0000_0000
    ensures Supported(x) && InRange(x) && Legal(x) && Project(x, VERSION) == x && Arrays(x) == 0
  {
  }

  lemma TwoSimpleValues(x: SEXP, y: SEXP)
    requires Supported(x) && InRange(x) && Legal(x) && Project(x, VERSION) == x && Arrays(x) == 0
    requires Supported(y) && InRange(y) && Legal(y) && Project(y, VERSION) == y && Arrays(y) == 0
    ensures var l := NamesOfTwo(x, y);
            Supported(l) && InRange(l) && Legal(l) && Project(l, VERSION) == l && Arrays(l) == 0
  {
    var es := [x, y];
    assert es[1..] == [y] && [y][1..] == [];
    assert AllSupported([y]) && AllInRange([y]) && AllLegal([y]);
    assert ProjectAll([y], VERSION) == [y] && ArraysAll([y]) == 0;
    assert ProjectAll(es, VERSION) == es;
  }

  lemma MatrixIsLegal(data: Data, r: I32, c: I32, names: SEXP)
    requires !data.Foreign? && !data.List? && data.Length() < 0x1_0000_0000
    requires ArrayAccepted(Plain(data), MatrixDim(r, c), names)
    requires Supported(names) && InRange(names) && Legal(names)
    requires Project(names, VERSION) == names && Arrays(names) == 0
    ensures var v := MatrixOf(data, r, c, names);
            Supported(v) && InRange(v) && Legal(v) && Project(v, VERSION) == v && Arrays(v) == 1
  {
    var v := MatrixOf(data, r, c, names);
    SimpleValue(MatrixDim(r, c));
    assert ArrayAccepted(v, MatrixDim(r, c), names) by { hide Product, DimnamesAccepted; }
    hide ArrayAccepted;
    assert Bare(v, VERSION) == Plain(data);
  }

  /** The file of any r by c matrix of numbers or strings is read back as that matrix, with or
      without names for its rows and columns. */
  lemma MatrixRoundTrip(data: Data, r: I32, c: I32, rows: SEXP, cols: SEXP)
    requires !data.Foreign? && !data.List? && data.Length() < 0x1_0000_0000
    requires 0 <= r && 0 <= c && data.Length() == r * c && NamesFor(rows, r) && NamesFor(cols, c)
    ensures var v := MatrixOf(data, r, c, Null);
            Supported(v) && ParseFile(FileBytes(v)) == Got(Item(v, Nodes(v), 1), [])
    ensures var v := MatrixOf(data, r, c, NamesOfTwo(rows, cols));
            Supported(v) && ParseFile(FileBytes(v)) == Got(Item(v, Nodes(v), 1), [])
  {
    var names := NamesOfTwo(rows, cols);
    MatrixAccepted(Plain(data), r, c, rows, cols);
    SimpleValue(Null);
    SimpleValue(rows);
    SimpleValue(cols);
    TwoSimpleValues(rows, cols);
    MatrixIsLegal(data, r, c, Null);
    MatrixIsLegal(data, r, c, names);
    hide ParseFile, FileBytes, Supported, InRange, Legal, Project, Nodes, Arrays;
    FileRoundTrip(MatrixOf(data, r, c, Null));
    FileRoundTrip(MatrixOf(data, r, c, names));
  }

  // ---------- Two values share an encoding iff they share a projection ----------

  lemma {:induction false} EncodeOfProjection(v: SEXP, ver: nat)
    requires Supported(v)
    ensures Supported(Project(v, ver)) && Encode(Project(v, ver), ver) == Encode(v, ver)
    decreases v, 2
  {
    EncodeValueOfBare(v, ver);
    if v.Obj? && v.dim.Obj? {
      EncodeOfProjection(v.dim, ver);
      EncodeOfProjection(v.dimnames, ver);
      var p := Project(v, ver);
      assert EncodeValue(p, ver) == EncodeValue(Bare(v, ver), ver) by {
        assert p == Bare(v, ver).(dim := p.dim, dimnames := p.dimnames);
        assert p.data == Bare(v, ver).data && p.names == Bare(v, ver).names;
      }
    }
  }

  lemma {:induction false} EncodeValueOfBare(v: SEXP, ver: nat)
    requires Supported(v)
    ensures Supported(Bare(v, ver)) && EncodeValue(Bare(v, ver), ver) == EncodeValue(v, ver)
    decreases v, 1
  {
    if v.Obj? && v.data.List? {
      EncodeAllOfProjections(v.data.elems, ver);
      assert EncodeNames(Bare(v, ver), ver) == EncodeNames(v, ver);
    }
  }

  lemma {:induction false} EncodeAllOfProjections(vs: seq<SEXP>, ver: nat)
    requires AllSupported(vs)
    ensures AllSupported(ProjectAll(vs, ver)) && EncodeAll(ProjectAll(vs, ver), ver) == EncodeAll(vs, ver)
    decreases vs, 0
  {
    if vs != [] {
      EncodeOfProjection(vs[0], ver);
      EncodeAllOfProjections(vs[1..], ver);
      assert ProjectAll(vs, ver)[1..] == ProjectAll(vs[1..], ver);
    }
  }

  lemma SameBytesIffSameProjection(v: SEXP, w: SEXP)
    requires Supported(v) && InRange(v) && Legal(v)
    requires Supported(w) && InRange(w) && Legal(w)
    ensures Encode(v, VERSION) == Encode(w, VERSION) <==> Project(v, VERSION) == Project(w, VERSION)
  {
    EncodeOfProjection(v, VERSION);
    EncodeOfProjection(w, VERSION);
    ParseEncoded(v, VERSION, []);
    ParseEncoded(w, VERSION, []);
    assert Encode(v, VERSION) + [] == Encode(v, VERSION) && Encode(w, VERSION) + [] == Encode(w, VERSION);
  }

  // ---------- Versions ----------

  lemma {:induction false} BodiesOf2And3Agree(v: SEXP)
    requires Supported(v)
    ensures Encode(v, 2) == Encode(v, 3) && EncodeValue(v, 2) == EncodeValue(v, 3)
    decreases v, 1
  {
    if v.Obj? {
      if v.data.List? { AllBodiesOf2And3Agree(v.data.elems); }
      if v.dim.Obj? {
        BodiesOf2And3Agree(v.dim);
        BodiesOf2And3Agree(v.dimnames);
      }
    }
  }

  lemma {:induction false} AllBodiesOf2And3Agree(vs: seq<SEXP>)
    requires AllSupported(vs)
    ensures EncodeAll(vs, 2) == EncodeAll(vs, 3)
    decreases vs, 0
  {
    if vs != [] {
      BodiesOf2And3Agree(vs[0]);
      AllBodiesOf2And3Agree(vs[1..]);
    }
  }

  /** On arbitrary bytes, version 2 accepts exactly what version 3 accepts without an array tag. */
  lemma {:induction false} Version2IsVersion3WithoutArrays(bs: seq<Byte>)
    ensures Parse(bs, 2).Got? <==> Parse(bs, 3).Got? && Parse(bs, 3).value.arrays == 0
    ensures Parse(bs, 2).Got? ==> Parse(bs, 2) == Parse(bs, 3)
    decreases |bs|, 0
  {
    if |bs| >= 8 && Word32(bs).value == K_LIST {
      var body := Word32(bs).rest;
      var n, rest := Word32(body).value, Word32(body).rest;
      assert ReadNames(n, rest, 2) == ReadNames(n, rest, 3);
      if ReadNames(n, rest, 3).Got? {
        AllVersion2IsVersion3WithoutArrays(n, ReadNames(n, rest, 3).rest);
      }
    }
  }

  lemma {:induction false} AllVersion2IsVersion3WithoutArrays(n: nat, bs: seq<Byte>)
    ensures ParseAll(n, bs, 2).Got? <==> ParseAll(n, bs, 3).Got? && ParseAll(n, bs, 3).value.arrays == 0
    ensures ParseAll(n, bs, 2).Got? ==> ParseAll(n, bs, 2) == ParseAll(n, bs, 3)
    decreases |bs|, 1
  {
    hide Parse;
    if n > 0 {
      Version2IsVersion3WithoutArrays(bs);
      if Parse(bs, 3).Got? {
        AllVersion2IsVersion3WithoutArrays(n - 1, Parse(bs, 3).rest);
      }
    }
  }

  /** No body of version 1 or 2 is accepted once its parse meets an array tag. */
  lemma {:induction false} OldVersionsMeetNoArray(bs: seq<Byte>, ver: nat)
    requires ver < 3 && Parse(bs, ver).Got?
    ensures Parse(bs, ver).value.arrays == 0 && ArrayFree(Parse(bs, ver).value.v)
    decreases |bs|, 0
  {
    if Word32(bs).value == K_LIST {
      var body := Word32(bs).rest;
      var n, rest := Word32(body).value, Word32(body).rest;
      OldVersionsMeetNoArrays(n, ReadNames(n, rest, ver).rest, ver);
    }
  }

  lemma {:induction false} OldVersionsMeetNoArrays(n: nat, bs: seq<Byte>, ver: nat)
    requires ver < 3 && ParseAll(n, bs, ver).Got?
    ensures ParseAll(n, bs, ver).value.arrays == 0 && AllArrayFree(ParseAll(n, bs, ver).value.v)
    decreases |bs|, 1
  {
    if n > 0 {
      var x := Parse(bs, ver);
      OldVersionsMeetNoArray(bs, ver);
      OldVersionsMeetNoArrays(n - 1, x.rest, ver);
      var xs := ParseAll(n, bs, ver).value.v;
      assert xs[1..] == ParseAll(n - 1, x.rest, ver).value.v;
    }
  }

  /** A version 1 or 2 body is read back iff the value has no array; version 1 drops list names. */
  lemma OldVersionRoundTrip(v: SEXP, ver: nat, tail: seq<Byte>)
    requires Supported(v) && InRange(v) && Legal(v) && 1 <= ver <= 2
    ensures ArrayFree(v) <==> Parse(Encode(v, ver) + tail, ver).Got?
    ensures ArrayFree(v) ==>
              Parse(Encode(v, ver) + tail, ver) == Got(Item(Project(v, ver), Nodes(v), 0), tail)
    ensures ArrayFree(v) && ver == 1 && v.Obj? ==> Project(v, ver) == Bare(v, ver) && Bare(v, ver).names == Null
  {
    ParseEncoded(v, ver, tail);
    if ArrayFree(v) {
      OldVersionsMeetNoArray(Encode(v, ver) + tail, ver);
    }
  }
}
