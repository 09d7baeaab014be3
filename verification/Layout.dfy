/** The format byte by byte: what the writer emits for one value of each kind, and which headers the
    reader takes. */
module Layout {
  import opened Bytes
  import opened RValues
  import opened Format

  /** Words are little-endian; the missing string and the integer -1 are 32 set bits. */
  lemma WordBytes(b0: Byte, b1: Byte, b2: Byte, b3: Byte)
    ensures var n := b0 + 0x100 * b1 + 0x1_0000 * b2 + 0x100_0000 * b3;
            n < 0x1_0000_0000 && PutU32(n) == [b0, b1, b2, b3] && GetU32([b0, b1, b2, b3]) == n
    ensures PutU32(Word(-1)) == [0xFF, 0xFF, 0xFF, 0xFF]
  {
    var m1 := b1 + 0x100 * b2 + 0x1_0000 * b3;
    var m2 := b2 + 0x100 * b3;
    var n := b0 + 0x100 * m1;
    assert n % 0x100 == b0 && n / 0x100 == m1;
    assert m1 == b1 + 0x100 * m2 && m1 % 0x100 == b1 && m1 / 0x100 == m2;
    assert m2 % 0x100 == b2 && m2 / 0x100 == b3;
    assert n / 0x1_0000 == m2 && n / 0x100_0000 == b3;
  }

  lemma SmallWord(n: Byte)
    ensures PutU32(n) == [n, 0, 0, 0]
  {
  }

  /** A file starts with "CSSR", which is the magic number in little-endian order, and version 3. */
  lemma FileStart(v: SEXP)
    requires Supported(v)
    ensures FileBytes(v) == [0x43, 0x53, 0x53, 0x52, 3, 0, 0, 0] + Encode(v, 3)
  {
    WordBytes(0x43, 0x53, 0x53, 0x52);
    SmallWord(3);
  }

  /** The reader takes that magic number with version 1, 2 or 3, and no other header. */
  lemma HeaderTaken(h: seq<Byte>, rest: seq<Byte>)
    requires |h| == 8
    ensures FileVersion(h + rest).Got? <==>
            h[..4] == [0x43, 0x53, 0x53, 0x52] && h[4] in {1, 2, 3} && h[5..] == [0, 0, 0]
    ensures FileVersion(h + rest).Got? ==> FileVersion(h + rest) == Got(h[4], rest)
  {
    var bs := h + rest;
    assert bs[4..][..4] == h[4..] && bs[4..][4..] == rest;
    WordBytes(h[0], h[1], h[2], h[3]);
    WordBytes(h[4], h[5], h[6], h[7]);
    WordBytes(0x43, 0x53, 0x53, 0x52);
    assert h[..4] == [h[0], h[1], h[2], h[3]] && h[4..] == [h[4], h[5], h[6], h[7]];
    assert h[5..] == [h[5], h[6], h[7]];
    assert Word32(bs) == Got(GetU32(h[..4]), bs[4..]);
    assert Word32(bs[4..]) == Got(GetU32(h[4..]), rest);
    SameWord(h[0], h[1], h[2], h[3], 0x43, 0x53, 0x53, 0x52);
  }

  lemma SameWord(a: Byte, b: Byte, c: Byte, d: Byte, a': Byte, b': Byte, c': Byte, d': Byte)
    ensures GetU32([a, b, c, d]) == GetU32([a', b', c', d']) <==> [a, b, c, d] == [a', b', c', d']
  {
    WordBytes(a, b, c, d);
    WordBytes(a', b', c', d');
  }

  lemma HeaderBytes(tag: Byte, n: Byte)
    ensures Header(tag, n) == [tag, 0, 0, 0, n, 0, 0, 0]
  {
    hide PutU32;
    SmallWord(tag);
    SmallWord(n);
  }

  lemma VectorBytes(data: Data, tag: Byte, payload: seq<Byte>, ver: nat)
    requires !data.Foreign? && !data.List? && Tag(data) == tag && data.Length() == 1 && Payload(data) == payload
    ensures Encode(Plain(data), ver) == [tag, 0, 0, 0, 1, 0, 0, 0] + payload
  {
    hide Header, Payload;
    HeaderBytes(tag, 1);
  }

  lemma OneString(s: RString)
    ensures EncodeStrings([s]) == EncodeString(s)
  {
    assert [s][1..] == [] && EncodeString(s) + [] == EncodeString(s);
  }

  /** One value of each atomic kind: tag, length, elements. */
  lemma AtomicKinds(x: Byte, d: Double, c: Byte, ver: nat)
    ensures Encode(Null, ver) == [0, 0, 0, 0]
    ensures Encode(Plain(Logicals([x])), ver) == [1, 0, 0, 0, 1, 0, 0, 0] + [x, 0, 0, 0]
    ensures Encode(Plain(Integers([x])), ver) == [2, 0, 0, 0, 1, 0, 0, 0] + [x, 0, 0, 0]
    ensures Encode(Plain(Reals([d])), ver) == [3, 0, 0, 0, 1, 0, 0, 0] + d
    ensures Encode(Plain(Strings([Str([c])])), ver) == [4, 0, 0, 0, 1, 0, 0, 0] + [1, 0, 0, 0, c]
    ensures Encode(Plain(Strings([NaString])), ver) == [4, 0, 0, 0, 1, 0, 0, 0] + [0xFF, 0xFF, 0xFF, 0xFF]
  {
    hide PutU32, Header, Encode;
    NullBytes(ver);
    SmallWord(1);
    SmallWord(x);
    WordBytes(0, 0, 0, 0);
    assert EncodeInts([x]) == [x, 0, 0, 0] by { assert [x][1..] == []; }
    assert EncodeReals([d]) == d by { assert [d][1..] == []; }
    OneString(Str([c]));
    OneString(NaString);
    VectorBytes(Logicals([x]), 1, [x, 0, 0, 0], ver);
    VectorBytes(Integers([x]), 2, [x, 0, 0, 0], ver);
    VectorBytes(Reals([d]), 3, d, ver);
    VectorBytes(Strings([Str([c])]), 4, [1, 0, 0, 0, c], ver);
    VectorBytes(Strings([NaString]), 4, [0xFF, 0xFF, 0xFF, 0xFF], ver);
  }

  lemma NullBytes(ver: nat)
    ensures Encode(Null, ver) == [0, 0, 0, 0]
  {
    SmallWord(0);
  }

  /** A list has a flag and, if it is 1, the names before its elements; in version 1 neither. */
  lemma ListBytes(v: SEXP, c: Byte, ver: nat)
    requires Supported(v)
    ensures Supported(Plain(List([v]))) && Supported(NamedList(v, c))
    ensures ver >= 2 ==>
              && Encode(Plain(List([v])), ver) == [5, 0, 0, 0, 1, 0, 0, 0] + [0, 0, 0, 0] + Encode(v, ver)
              && Encode(NamedList(v, c), ver) ==
                 [5, 0, 0, 0, 1, 0, 0, 0] + ([1, 0, 0, 0] + [1, 0, 0, 0, c]) + Encode(v, ver)
    ensures Encode(NamedList(v, c), 1) == [5, 0, 0, 0, 1, 0, 0, 0] + Encode(v, 1)
  {
    hide PutU32, Header;
    SmallWord(0);
    SmallWord(1);
    HeaderBytes(5, 1);
    OneString(Str([c]));
    OneElement(v, ver);
    OneElement(v, 1);
    hide Encode, EncodeAll, EncodeStrings;
    ListEncoding(Plain(List([v])), ver);
    ListEncoding(NamedList(v, c), ver);
    ListEncoding(NamedList(v, c), 1);
  }

  function NamedList(v: SEXP, c: Byte): SEXP {
    Obj(List([v]), Plain(Strings([Str([c])])), Null, Null, [])
  }

  lemma OneElement(v: SEXP, ver: nat)
    requires Supported(v)
    ensures AllSupported([v]) && EncodeAll([v], ver) == Encode(v, ver)
  {
    assert [v][1..] == [] && Encode(v, ver) + [] == Encode(v, ver);
  }

  lemma ListEncoding(l: SEXP, ver: nat)
    requires l.Obj? && l.data.List? && l.dim.Null? && AllSupported(l.data.elems)
    ensures Supported(l)
    ensures Encode(l, ver) == Header(5, |l.data.elems|) + EncodeNames(l, ver) + EncodeAll(l.data.elems, ver)
  {
    hide EncodeNames, EncodeAll, Header;
  }

  /** An array has a tag, its dim and its dimnames before the value. */
  lemma ArrayBytes(data: Data, dim: SEXP, dimnames: SEXP, ver: nat)
    requires dim.Obj? && !data.List? && !data.Foreign? && Supported(dim) && Supported(dimnames)
    ensures var v := Obj(data, Null, dim, dimnames, []);
            && Supported(v)
            && Encode(v, ver) == [6, 0, 0, 0] + Encode(dim, ver) + Encode(dimnames, ver) + Encode(Plain(data), ver)
  {
    hide PutU32, Header, Payload;
    SmallWord(6);
    var v := Obj(data, Null, dim, dimnames, []);
    assert EncodeValue(v, ver) == EncodeValue(Plain(data), ver) == Encode(Plain(data), ver);
  }
}
