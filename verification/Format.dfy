/** The byte format: the bytes the writer emits for a value, and the parse the reader performs. */
module Format {
  import opened Bytes
  import opened RValues

  const MAGIC: U32 := 0x52535343
  const VERSION := 3
  const MIN_READ_VERSION := 1

  const K_NIL := 0
  const K_LOGICAL := 1
  const K_INTEGER := 2
  const K_REAL := 3
  const K_STRING := 4
  const K_LIST := 5
  const K_ARRAY := 6

  // ---------- Encoding ----------

  function EncodeInts(xs: seq<I32>): seq<Byte> {
    if xs == [] then [] else PutU32(Word(xs[0])) + EncodeInts(xs[1..])
  }

  function EncodeReals(xs: seq<Double>): (bs: seq<Byte>)
    ensures |bs| == 8 * |xs|
  {
    if xs == [] then [] else xs[0] + EncodeReals(xs[1..])
  }

  function EncodeString(s: RString): seq<Byte> {
    match s
    case NaString => PutU32(Word(-1))
    case Str(cs) => PutU32(Word(|cs|)) + cs
  }

  function EncodeStrings(ss: seq<RString>): seq<Byte> {
    if ss == [] then [] else EncodeString(ss[0]) + EncodeStrings(ss[1..])
  }

  function Header(tag: U32, length: nat): seq<Byte> {
    PutU32(tag) + PutU32(Truncate(length))
  }

  function EncodeNames(v: SEXP, ver: nat): seq<Byte> {
    if ver < 2 then []
    else if HasNames(v) then PutU32(1) + EncodeStrings(v.names.data.strs)
    else PutU32(0)
  }

  function Tag(data: Data): U32
    requires !data.Foreign?
  {
    match data
    case Logicals(_) => K_LOGICAL
    case Integers(_) => K_INTEGER
    case Reals(_) => K_REAL
    case Strings(_) => K_STRING
    case List(_) => K_LIST
  }

  /** The elements of an atomic vector; a list is written by `EncodeValue` itself. */
  function Payload(data: Data): seq<Byte>
    requires !data.Foreign? && !data.List?
  {
    match data
    case Logicals(xs) => EncodeInts(xs)
    case Integers(xs) => EncodeInts(xs)
    case Reals(xs) => EncodeReals(xs)
    case Strings(ss) => EncodeStrings(ss)
  }

  function EncodeValue(v: SEXP, ver: nat): seq<Byte>
    requires SupportedValue(v)
    decreases v, 1
  {
    if v.Null? then PutU32(K_NIL) else
    Header(Tag(v.data), v.data.Length()) +
    if v.data.List? then EncodeNames(v, ver) + EncodeAll(v.data.elems, ver) else Payload(v.data)
  }

  function EncodeArray(v: SEXP, ver: nat): seq<Byte>
    requires Supported(v) && v.Obj? && v.dim.Obj?
    decreases v, 1
  {
    PutU32(K_ARRAY) + Encode(v.dim, ver) + Encode(v.dimnames, ver)
  }

  function Encode(v: SEXP, ver: nat): seq<Byte>
    requires Supported(v)
    decreases v, 2
  {
    if v.Null? || v.dim.Null? then EncodeValue(v, ver)
    else EncodeArray(v, ver) + EncodeValue(v, ver)
  }

  function EncodeAll(vs: seq<SEXP>, ver: nat): seq<Byte>
    requires AllSupported(vs)
    decreases vs, 0
  {
    if vs == [] then [] else Encode(vs[0], ver) + EncodeAll(vs[1..], ver)
  }

  function FileBytes(v: SEXP): seq<Byte>
    requires Supported(v)
  {
    PutU32(MAGIC) + PutU32(VERSION) + Encode(v, VERSION)
  }

  // ---------- Parsing ----------

  datatype ReadError =
    | ShortRead | BadStringLength | BadNameFlag | UnknownTag
    | ArrayNeedsVersion3 | ArrayRejected | BadMagic | BadVersion

  /** A read either stops with an error or yields a value and leaves the unread bytes. */
  datatype Read<+T> = Got(value: T, rest: seq<Byte>) | Failed(error: ReadError)

  function Word32(bs: seq<Byte>): Read<U32> {
    if |bs| < 4 then Failed(ShortRead) else Got(GetU32(bs), bs[4..])
  }

  function ReadInts(n: nat, bs: seq<Byte>): (r: Read<seq<I32>>)
    ensures r.Got? ==> |r.value| == n && |r.rest| + 4 * n == |bs|
  {
    if n == 0 then Got([], bs) else
    match Word32(bs)
    case Failed(e) => Failed(e)
    case Got(w, rest) =>
      match ReadInts(n - 1, rest)
      case Failed(e) => Failed(e)
      case Got(xs, rest') => Got([Signed(w)] + xs, rest')
  }

  function Split8(bs: seq<Byte>): (xs: seq<Double>)
    requires |bs| % 8 == 0
    ensures |xs| == |bs| / 8
  {
    if bs == [] then [] else
    var d: Double := bs[..8];
    [d] + Split8(bs[8..])
  }

  function ReadReals(n: nat, bs: seq<Byte>): (r: Read<seq<Double>>)
    ensures r.Got? ==> |r.value| == n && |r.rest| + 8 * n == |bs|
  {
    if |bs| < 8 * n then Failed(ShortRead) else Got(Split8(bs[..8 * n]), bs[8 * n..])
  }

  function ReadString(bs: seq<Byte>): (r: Read<RString>)
    ensures r.Got? ==> |r.rest| + 4 <= |bs|
  {
    match Word32(bs)
    case Failed(e) => Failed(e)
    case Got(w, rest) =>
      var length := Signed(w);
      if length == -1 then Got(NaString, rest)
      else if length < 0 then Failed(BadStringLength)
      else if |rest| < length then Failed(ShortRead)
      else Got(Str(rest[..length]), rest[length..])
  }

  function ReadStrings(n: nat, bs: seq<Byte>): (r: Read<seq<RString>>)
    ensures r.Got? ==> |r.value| == n && |r.rest| + 4 * n <= |bs|
  {
    if n == 0 then Got([], bs) else
    match ReadString(bs)
    case Failed(e) => Failed(e)
    case Got(s, rest) =>
      match ReadStrings(n - 1, rest)
      case Failed(e) => Failed(e)
      case Got(ss, rest') => Got([s] + ss, rest')
  }

  /** The names block of a list: absent before version 2, and announced by a 0/1 flag after. */
  function ReadNames(n: nat, bs: seq<Byte>, ver: nat): (r: Read<SEXP>)
    ensures r.Got? ==> |r.rest| <= |bs|
  {
    if ver < 2 then Got(Null, bs) else
    match Word32(bs)
    case Failed(e) => Failed(e)
    case Got(flag, rest) =>
      if flag > 1 then Failed(BadNameFlag)
      else if flag == 0 then Got(Null, rest)
      else match ReadStrings(n, rest)
           case Failed(e) => Failed(e)
           case Got(ss, rest') => Got(Plain(Strings(ss)), rest')
  }

  /** A parsed item with the number of vectors allocated for it and of array tags met in it. */
  datatype Item<+T> = Item(v: T, nodes: nat, arrays: nat)

  function ReadVector(tag: U32, n: nat, bs: seq<Byte>): (r: Read<Data>)
    requires K_LOGICAL <= tag <= K_STRING
    ensures r.Got? ==> |r.rest| <= |bs| && r.value.Length() == n && !r.value.List?
  {
    if tag <= K_INTEGER then
      match ReadInts(n, bs)
      case Failed(e) => Failed(e)
      case Got(xs, rest) => Got(if tag == K_LOGICAL then Logicals(xs) else Integers(xs), rest)
    else if tag == K_REAL then
      match ReadReals(n, bs)
      case Failed(e) => Failed(e)
      case Got(xs, rest) => Got(Reals(xs), rest)
    else
      match ReadStrings(n, bs)
      case Failed(e) => Failed(e)
      case Got(ss, rest) => Got(Strings(ss), rest)
  }

  function Parse(bs: seq<Byte>, ver: nat): (r: Read<Item<SEXP>>)
    ensures r.Got? ==> |r.rest| + 4 <= |bs|
    decreases |bs|, 0
  {
    match Word32(bs)
    case Failed(e) => Failed(e)
    case Got(tag, body) =>
      if tag == K_ARRAY then
        if ver < 3 then Failed(ArrayNeedsVersion3) else ParseArray(body, ver)
      else if tag == K_NIL then Got(Item(Null, 0, 0), body)
      else if tag > K_ARRAY then Failed(UnknownTag)
      else
        match Word32(body)
        case Failed(e) => Failed(e)
        case Got(n, rest) =>
          if tag == K_LIST then ParseList(n, rest, ver) else
          match ReadVector(tag, n, rest)
          case Failed(e) => Failed(e)
          case Got(data, rest') => Got(Item(Plain(data), 1, 0), rest')
  }

  function ParseArray(bs: seq<Byte>, ver: nat): (r: Read<Item<SEXP>>)
    ensures r.Got? ==> |r.rest| <= |bs|
    decreases |bs|, 1
  {
    match Parse(bs, ver)
    case Failed(e) => Failed(e)
    case Got(dim, r1) =>
      match Parse(r1, ver)
      case Failed(e) => Failed(e)
      case Got(dimnames, r2) =>
        match Parse(r2, ver)
        case Failed(e) => Failed(e)
        case Got(value, r3) =>
          if !ArrayAccepted(value.v, dim.v, dimnames.v) then Failed(ArrayRejected)
          else Got(Item(WithDim(value.v, dim.v, dimnames.v),
                        dim.nodes + dimnames.nodes + value.nodes,
                        1 + dim.arrays + dimnames.arrays + value.arrays), r3)
  }

  function ParseList(n: nat, bs: seq<Byte>, ver: nat): (r: Read<Item<SEXP>>)
    ensures r.Got? ==> |r.rest| <= |bs|
    decreases |bs|, 2
  {
    match ReadNames(n, bs, ver)
    case Failed(e) => Failed(e)
    case Got(names, rest) =>
      match ParseAll(n, rest, ver)
      case Failed(e) => Failed(e)
      case Got(es, rest') =>
        Got(Item(Plain(List(es.v)).(names := names), 1 + es.nodes, es.arrays), rest')
  }

  function ParseAll(n: nat, bs: seq<Byte>, ver: nat): (r: Read<Item<seq<SEXP>>>)
    ensures r.Got? ==> |r.value.v| == n && |r.rest| + 4 * n <= |bs|
    decreases |bs|, 1
  {
    if n == 0 then Got(Item([], 0, 0), bs) else
    match Parse(bs, ver)
    case Failed(e) => Failed(e)
    case Got(x, rest) =>
      match ParseAll(n - 1, rest, ver)
      case Failed(e) => Failed(e)
      case Got(xs, rest') => Got(Item([x.v] + xs.v, x.nodes + xs.nodes, x.arrays + xs.arrays), rest')
  }

  /** The two header words: the magic number, then a version this reader knows. */
  function FileVersion(bs: seq<Byte>): Read<U32> {
    match Word32(bs)
    case Failed(e) => Failed(e)
    case Got(magic, body) =>
      if magic != MAGIC then Failed(BadMagic) else
      match Word32(body)
      case Failed(e) => Failed(e)
      case Got(version, rest) =>
        if version < MIN_READ_VERSION || version > VERSION then Failed(BadVersion) else Got(version, rest)
  }

  function ParseFile(bs: seq<Byte>): Read<Item<SEXP>> {
    match FileVersion(bs)
    case Failed(e) => Failed(e)
    case Got(version, rest) => Parse(rest, version)
  }

  // ---------- Protection ----------

  /** The number of vectors that reading these bytes has put on the PROTECT stack, and left there,
      when it ends with a value or an error. */
  function Protected(bs: seq<Byte>, ver: nat): nat
    decreases |bs|, 0
  {
    match Word32(bs)
    case Failed(_) => 0
    case Got(tag, body) =>
      if tag == K_ARRAY then
        if ver < 3 then 0 else ProtectedByArray(body, ver)
      else if tag == K_NIL || tag > K_ARRAY then 0
      else match Word32(body)
           case Failed(_) => 0
           case Got(n, rest) => if tag == K_LIST then ProtectedByList(n, rest, ver) else 1
  }

  function ProtectedByArray(bs: seq<Byte>, ver: nat): nat
    decreases |bs|, 1
  {
    Protected(bs, ver) +
    match Parse(bs, ver)
    case Failed(_) => 0
    case Got(_, r1) =>
      Protected(r1, ver) +
      match Parse(r1, ver)
      case Failed(_) => 0
      case Got(_, r2) => Protected(r2, ver)
  }

  /** The names vector leaves the stack when the list holds it, so it stays only in an error. */
  function ProtectedByNames(n: nat, bs: seq<Byte>, ver: nat): nat {
    if ver >= 2 && Word32(bs).Got? && Word32(bs).value == 1 && ReadStrings(n, Word32(bs).rest).Failed? then 1 else 0
  }

  function ProtectedByList(n: nat, bs: seq<Byte>, ver: nat): nat
    decreases |bs|, 2
  {
    1 + match ReadNames(n, bs, ver)
        case Failed(_) => ProtectedByNames(n, bs, ver)
        case Got(_, rest) => ProtectedByAll(n, rest, ver)
  }

  function ProtectedByAll(n: nat, bs: seq<Byte>, ver: nat): nat
    decreases |bs|, 1
  {
    if n == 0 then 0 else
    Protected(bs, ver) +
    match Parse(bs, ver)
    case Failed(_) => 0
    case Got(_, rest) => ProtectedByAll(n - 1, rest, ver)
  }

  function ProtectedByFile(bs: seq<Byte>): nat {
    match FileVersion(bs)
    case Failed(_) => 0
    case Got(version, rest) => Protected(rest, version)
  }

  /** With a value, these are the vectors allocated for it. */
  lemma {:induction false} ProtectedIsNodes(bs: seq<Byte>, ver: nat)
    requires Parse(bs, ver).Got?
    ensures Protected(bs, ver) == Parse(bs, ver).value.nodes
    decreases |bs|, 0
  {
    var body := Word32(bs).rest;
    if Word32(bs).value == K_ARRAY {
      var dim := Parse(body, ver);
      var dimnames := Parse(dim.rest, ver);
      ProtectedIsNodes(body, ver);
      ProtectedIsNodes(dim.rest, ver);
      ProtectedIsNodes(dimnames.rest, ver);
    } else if Word32(bs).value == K_LIST {
      var n, rest := Word32(body).value, Word32(body).rest;
      ProtectedByAllIsNodes(n, ReadNames(n, rest, ver).rest, ver);
    }
  }

  lemma {:induction false} ProtectedByAllIsNodes(n: nat, bs: seq<Byte>, ver: nat)
    requires ParseAll(n, bs, ver).Got?
    ensures ProtectedByAll(n, bs, ver) == ParseAll(n, bs, ver).value.nodes
    decreases |bs|, 1
  {
    hide Parse, Protected;
    if n > 0 {
      ProtectedIsNodes(bs, ver);
      ProtectedByAllIsNodes(n - 1, Parse(bs, ver).rest, ver);
    }
  }
}
