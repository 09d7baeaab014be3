/** The converse of the round trip: what the reader accepts is what the writer writes. */
module Canonical {
  import opened Bytes
  import opened RValues
  import opened Format
  import opened RoundTrip

  lemma WordIsWritten(bs: seq<Byte>)
    requires Word32(bs).Got?
    ensures PutU32(Word32(bs).value) + Word32(bs).rest == bs
  {
    var b0: int, b1: int, b2: int, b3: int := bs[0], bs[1], bs[2], bs[3];
    var n := GetU32(bs);
    var m1 := b1 + 256 * b2 + 65536 * b3;
    var m2 := b2 + 256 * b3;
    assert n == b0 + 256 * m1 && n % 256 == b0 && n / 256 == m1;
    assert m1 == b1 + 256 * m2 && m1 % 256 == b1 && m1 / 256 == m2;
    assert n / 65536 == m2 && m2 % 256 == b2 && m2 / 256 == b3 && n / 16777216 == b3;
    assert PutU32(n) == bs[..4];
  }

  lemma SignedIsWritten(w: U32)
    ensures Word(Signed(w)) == w
  {
  }

  lemma {:induction false} IntsAreWritten(n: nat, bs: seq<Byte>)
    requires ReadInts(n, bs).Got?
    ensures EncodeInts(ReadInts(n, bs).value) + ReadInts(n, bs).rest == bs
  {
    hide PutU32, Word32;
    if n > 0 {
      var w, rest := Word32(bs).value, Word32(bs).rest;
      WordIsWritten(bs);
      SignedIsWritten(w);
      IntsAreWritten(n - 1, rest);
      var xs, end := ReadInts(n - 1, rest).value, ReadInts(n - 1, rest).rest;
      assert ([Signed(w)] + xs)[1..] == xs;
      assert EncodeInts([Signed(w)] + xs) == PutU32(w) + EncodeInts(xs);
      assert PutU32(w) + EncodeInts(xs) + end == PutU32(w) + (EncodeInts(xs) + end);
    }
  }

  lemma {:induction false} RealsAreWritten(bs: seq<Byte>)
    requires |bs| % 8 == 0
    ensures EncodeReals(Split8(bs)) == bs
    decreases |bs|
  {
    if bs != [] {
      RealsAreWritten(bs[8..]);
      assert bs == bs[..8] + bs[8..];
    }
  }

  lemma StringIsWritten(bs: seq<Byte>)
    requires ReadString(bs).Got?
    ensures EncodeString(ReadString(bs).value) + ReadString(bs).rest == bs
  {
    hide PutU32, Word32;
    WordIsWritten(bs);
    var w, rest := Word32(bs).value, Word32(bs).rest;
    SignedIsWritten(w);
    if Signed(w) != -1 {
      var k := Signed(w);
      assert rest == rest[..k] + rest[k..];
      assert PutU32(w) + rest[..k] + rest[k..] == PutU32(w) + (rest[..k] + rest[k..]);
    }
  }

  lemma {:induction false} StringsAreWritten(n: nat, bs: seq<Byte>)
    requires ReadStrings(n, bs).Got?
    ensures EncodeStrings(ReadStrings(n, bs).value) + ReadStrings(n, bs).rest == bs
  {
    hide ReadString, EncodeString;
    if n > 0 {
      var s, rest := ReadString(bs).value, ReadString(bs).rest;
      StringIsWritten(bs);
      StringsAreWritten(n - 1, rest);
      var ss, end := ReadStrings(n - 1, rest).value, ReadStrings(n - 1, rest).rest;
      assert ([s] + ss)[1..] == ss;
      assert EncodeString(s) + EncodeStrings(ss) + end == EncodeString(s) + (EncodeStrings(ss) + end);
    }
  }

  lemma VectorIsWritten(tag: U32, n: nat, bs: seq<Byte>)
    requires K_LOGICAL <= tag <= K_STRING && ReadVector(tag, n, bs).Got?
    ensures var r := ReadVector(tag, n, bs);
            !r.value.Foreign? && Tag(r.value) == tag && Payload(r.value) + r.rest == bs
  {
    hide ReadInts, ReadStrings, EncodeInts, EncodeReals, EncodeStrings, Split8;
    if tag <= K_INTEGER {
      IntsAreWritten(n, bs);
    } else if tag == K_REAL {
      RealsAreWritten(bs[..8 * n]);
      assert bs == bs[..8 * n] + bs[8 * n..];
    } else {
      StringsAreWritten(n, bs);
    }
  }

  lemma NamesAreWritten(n: nat, bs: seq<Byte>, ver: nat, v: SEXP)
    requires ReadNames(n, bs, ver).Got? && v.Obj? && v.data.List? && |v.data.elems| == n
    requires v.names == ReadNames(n, bs, ver).value
    ensures EncodeNames(v, ver) + ReadNames(n, bs, ver).rest == bs
  {
    hide PutU32, Word32, ReadStrings, EncodeStrings;
    if ver >= 2 {
      WordIsWritten(bs);
      var flag, rest := Word32(bs).value, Word32(bs).rest;
      if flag == 1 {
        StringsAreWritten(n, rest);
        var ss, end := ReadStrings(n, rest).value, ReadStrings(n, rest).rest;
        assert PutU32(1) + EncodeStrings(ss) + end == PutU32(1) + (EncodeStrings(ss) + end);
      }
    }
  }

  /** The parse of bytes with two leading words, neither null nor an array. */
  lemma HeadedParse(bs: seq<Byte>, ver: nat)
    requires Parse(bs, ver).Got? && Parse(bs, ver).value.arrays == 0 && Word32(bs).value != K_NIL
    ensures Word32(bs).Got? && Word32(Word32(bs).rest).Got? && K_LOGICAL <= Word32(bs).value <= K_LIST
    ensures var tag, n, rest := Word32(bs).value, Word32(Word32(bs).rest).value, Word32(Word32(bs).rest).rest;
            && |rest| < |bs|
            && (tag == K_LIST ==> Parse(bs, ver) == ParseList(n, rest, ver))
            && (tag != K_LIST ==>
                  && ReadVector(tag, n, rest).Got?
                  && Parse(bs, ver) ==
                     Got(Item(Plain(ReadVector(tag, n, rest).value), 1, 0), ReadVector(tag, n, rest).rest))
  {
    hide ParseList, ReadVector;
  }

  lemma HeadedIsWritten(v: SEXP, ver: nat, tag: U32, n: U32, payload: seq<Byte>, tail: seq<Byte>, rest: seq<Byte>)
    requires v.Obj? && v.dim.Null? && !v.data.Foreign? && (v.data.List? ==> AllSupported(v.data.elems))
    requires Tag(v.data) == tag && v.data.Length() == n
    requires payload == if v.data.List? then EncodeNames(v, ver) + EncodeAll(v.data.elems, ver) else Payload(v.data)
    requires payload + tail == rest
    ensures Supported(v) && Encode(v, ver) + tail == PutU32(tag) + (PutU32(n) + rest)
  {
    hide PutU32, EncodeNames, EncodeAll, Payload, AllSupported;
    assert Encode(v, ver) == (PutU32(tag) + PutU32(n)) + payload;
  }

  /** Array-free bytes that the reader accepts at any version are, up to what it leaves unread,
      exactly the bytes the writer emits for the value it returns. */
  lemma {:induction false} AcceptedIsWritten(bs: seq<Byte>, ver: nat)
    requires Parse(bs, ver).Got? && Parse(bs, ver).value.arrays == 0
    ensures var r := Parse(bs, ver);
            Supported(r.value.v) && ArrayFree(r.value.v) && Encode(r.value.v, ver) + r.rest == bs
    decreases |bs|, 0
  {
    WordIsWritten(bs);
    var tag, body := Word32(bs).value, Word32(bs).rest;
    if tag != K_NIL {
      HeadedParse(bs, ver);
      WordIsWritten(body);
      var n, rest := Word32(body).value, Word32(body).rest;
      hide Parse, ParseList, ReadVector, PutU32, Word32, Encode, EncodeAll, EncodeNames, Payload;
      if tag == K_LIST {
        ListIsWritten(n, rest, ver);
        var r := ParseList(n, rest, ver);
        var v := r.value.v;
        HeadedIsWritten(v, ver, tag, n, EncodeNames(v, ver) + EncodeAll(v.data.elems, ver), r.rest, rest);
      } else {
        VectorIsWritten(tag, n, rest);
        var r := ReadVector(tag, n, rest);
        HeadedIsWritten(Plain(r.value), ver, tag, n, Payload(r.value), r.rest, rest);
      }
    }
  }

  lemma {:induction false} ListIsWritten(n: nat, bs: seq<Byte>, ver: nat)
    requires ParseList(n, bs, ver).Got? && ParseList(n, bs, ver).value.arrays == 0
    ensures var r := ParseList(n, bs, ver);
            var v := r.value.v;
            && v.Obj? && v.data.List? && v.dim.Null? && |v.data.elems| == n
            && AllSupported(v.data.elems) && AllArrayFree(v.data.elems)
            && (EncodeNames(v, ver) + EncodeAll(v.data.elems, ver)) + r.rest == bs
    decreases |bs|, 2
  {
    hide Parse, ReadNames, EncodeNames;
    var rest := ReadNames(n, bs, ver).rest;
    ElementsAreWritten(n, rest, ver);
    var r := ParseList(n, bs, ver);
    NamesAreWritten(n, bs, ver, r.value.v);
    Regroup(EncodeNames(r.value.v, ver), EncodeAll(r.value.v.data.elems, ver), r.rest);
  }

  lemma {:induction false} ElementsAreWritten(n: nat, bs: seq<Byte>, ver: nat)
    requires ParseAll(n, bs, ver).Got? && ParseAll(n, bs, ver).value.arrays == 0
    ensures var r := ParseAll(n, bs, ver);
            AllSupported(r.value.v) && AllArrayFree(r.value.v) && EncodeAll(r.value.v, ver) + r.rest == bs
    decreases |bs|, 1
  {
    hide Parse, Encode;
    if n > 0 {
      AcceptedIsWritten(bs, ver);
      var x := Parse(bs, ver);
      ElementsAreWritten(n - 1, x.rest, ver);
      var xs := ParseAll(n - 1, x.rest, ver);
      assert ([x.value.v] + xs.value.v)[1..] == xs.value.v;
      Regroup(Encode(x.value.v, ver), EncodeAll(xs.value.v, ver), xs.rest);
    }
  }

  /** A version 3 file without arrays that is accepted and read to its end is the file the
      serializer writes for the value read. */
  lemma AcceptedFileIsWritten(file: seq<Byte>)
    requires FileVersion(file).Got? && FileVersion(file).value == VERSION
    requires ParseFile(file).Got? && ParseFile(file).rest == [] && ParseFile(file).value.arrays == 0
    ensures Supported(ParseFile(file).value.v) && FileBytes(ParseFile(file).value.v) == file
  {
    hide PutU32, Word32, Parse, Encode;
    WordIsWritten(file);
    WordIsWritten(Word32(file).rest);
    var body := FileVersion(file).rest;
    AcceptedIsWritten(body, VERSION);
    var v := ParseFile(file).value.v;
    assert Encode(v, VERSION) == body;
    Regroup(PutU32(MAGIC), PutU32(VERSION), body);
  }

  // ---------- Arrays ----------

  lemma ArraySteps(bs: seq<Byte>)
    requires Parse(bs, VERSION).Got? && Word32(bs).value == K_ARRAY
    ensures var body := Word32(bs).rest;
            && Word32(bs).Got? && |body| < |bs| && Parse(body, VERSION).Got?
            && var dim := Parse(body, VERSION);
            && |dim.rest| < |bs| && Parse(dim.rest, VERSION).Got?
            && var dimnames := Parse(dim.rest, VERSION);
            && |dimnames.rest| < |bs| && Parse(dimnames.rest, VERSION).Got? && Word32(dimnames.rest).Got?
            && var value := Parse(dimnames.rest, VERSION);
            && ArrayAccepted(value.value.v, dim.value.v, dimnames.value.v)
            && Parse(bs, VERSION).rest == value.rest
            && Parse(bs, VERSION).value.v == WithDim(value.value.v, dim.value.v, dimnames.value.v)
  {
    var body := Word32(bs).rest;
    assert Parse(bs, VERSION) == ParseArray(body, VERSION);
    WordOfParse(Parse(Parse(body, VERSION).rest, VERSION).rest);
  }

  lemma WordOfParse(bs: seq<Byte>)
    requires Parse(bs, VERSION).Got?
    ensures Word32(bs).Got?
  {
  }

  lemma ListSteps(bs: seq<Byte>)
    requires Parse(bs, VERSION).Got? && Word32(bs).value == K_LIST
    ensures var body := Word32(bs).rest;
            && Word32(bs).Got? && Word32(body).Got?
            && var (n, rest) := (Word32(body).value, Word32(body).rest);
            && ReadNames(n, rest, VERSION).Got?
            && var (names, elems) := (ReadNames(n, rest, VERSION).value, ReadNames(n, rest, VERSION).rest);
            && |elems| < |bs| && ParseAll(n, elems, VERSION).Got?
            && var es := ParseAll(n, elems, VERSION);
            && Parse(bs, VERSION).rest == es.rest
            && Parse(bs, VERSION).value.v == Plain(List(es.value.v)).(names := names)
  {
    var body := Word32(bs).rest;
    assert Parse(bs, VERSION) == ParseList(Word32(body).value, Word32(body).rest, VERSION);
  }

  /** Every array tag met in these bytes is followed by a dim that is not null and by a value with no
      array tag of its own. */
  predicate Wrapped(bs: seq<Byte>)
    requires Parse(bs, VERSION).Got?
    decreases |bs|, 0
  {
    if Word32(bs).value == K_ARRAY then
      ArraySteps(bs);
      var body := Word32(bs).rest;
      var dim := Parse(body, VERSION);
      var dimnames := Parse(dim.rest, VERSION);
      && dim.value.v.Obj? && Word32(dimnames.rest).value != K_ARRAY
      && Wrapped(body) && Wrapped(dim.rest) && Wrapped(dimnames.rest)
    else if Word32(bs).value == K_LIST then
      ListSteps(bs);
      var body := Word32(bs).rest;
      AllWrapped(Word32(body).value, ReadNames(Word32(body).value, Word32(body).rest, VERSION).rest)
    else true
  }

  predicate AllWrapped(n: nat, bs: seq<Byte>)
    requires ParseAll(n, bs, VERSION).Got?
    decreases |bs|, 1
  {
    n == 0 || (Wrapped(bs) && AllWrapped(n - 1, Parse(bs, VERSION).rest))
  }

  /** These bytes are the writer's for the value read from them. */
  predicate AsWritten(bs: seq<Byte>)
    requires Parse(bs, VERSION).Got?
  {
    var r := Parse(bs, VERSION);
    Supported(r.value.v) && Encode(r.value.v, VERSION) + r.rest == bs
  }

  predicate AllAsWritten(n: nat, bs: seq<Byte>)
    requires ParseAll(n, bs, VERSION).Got?
  {
    var r := ParseAll(n, bs, VERSION);
    AllSupported(r.value.v) && EncodeAll(r.value.v, VERSION) + r.rest == bs
  }

  /** Where the bytes start with the encoding of the value read from them, that encoding is what the
      reader took: a parse does not depend on what follows it. */
  lemma WrittenPrefix(bs: seq<Byte>, v: SEXP, tail: seq<Byte>)
    requires Parse(bs, VERSION).Got? && Parse(bs, VERSION).value.v == v && Supported(v)
    requires bs == Encode(v, VERSION) + tail
    ensures Parse(bs, VERSION).rest == tail
  {
    ReadSurvivesRewriting(bs, VERSION, tail);
  }

  /** The first word of a value written without its wrapper. */
  lemma ValueTag(v: SEXP, tail: seq<Byte>)
    requires SupportedValue(v)
    ensures var bs := EncodeValue(v, VERSION) + tail; Word32(bs).Got? && Word32(bs).value != K_ARRAY
  {
    hide PutU32, Word32;
    var tag := if v.Null? then K_NIL else Tag(v.data);
    var rest := EncodeValue(v, VERSION)[4..] + tail;
    assert EncodeValue(v, VERSION) + tail == PutU32(tag) + rest;
    ReadWord(tag, rest);
  }

  /** What the reader accepts at version 3 is what the writer writes for the value it returns if and
      only if no array tag is without a dim or in front of another array tag. */
  lemma {:induction false} AcceptedIsWrittenIff(bs: seq<Byte>)
    requires Parse(bs, VERSION).Got?
    ensures AsWritten(bs) <==> Wrapped(bs)
    decreases |bs|, 2
  {
    hide AsWritten;
    WordOfParse(bs);
    if Word32(bs).value == K_ARRAY {
      WrapperIsWrittenIff(bs);
    } else if Word32(bs).value == K_LIST {
      ListIsWrittenIff(bs);
    } else {
      VectorAsWritten(bs);
    }
  }

  lemma VectorAsWritten(bs: seq<Byte>)
    requires Parse(bs, VERSION).Got? && Word32(bs).value != K_ARRAY && Word32(bs).value != K_LIST
    ensures AsWritten(bs)
  {
    hide ReadVector;
    assert Parse(bs, VERSION).value.arrays == 0;
    AcceptedIsWritten(bs, VERSION);
  }

  lemma {:induction false} ListIsWrittenIff(bs: seq<Byte>)
    requires Parse(bs, VERSION).Got? && Word32(bs).value == K_LIST
    ensures AsWritten(bs) <==> Wrapped(bs)
    decreases |bs|, 1
  {
    ListSteps(bs);
    var body := Word32(bs).rest;
    var elems := ReadNames(Word32(body).value, Word32(body).rest, VERSION).rest;
    var r := Parse(bs, VERSION);
    hide PutU32, Word32, ReadNames, Encode, EncodeAll, Parse, ParseAll;
    AllAcceptedIsWrittenIff(Word32(body).value, elems);
    ReadIsWritable(bs, VERSION);
    var front := ListFront(bs);
    SamePrefix(front, EncodeAll(r.value.v.data.elems, VERSION) + r.rest, elems);
  }

  /** The bytes of a list in front of its elements, which are written as they were read. */
  lemma ListFront(bs: seq<Byte>) returns (front: seq<Byte>)
    requires Parse(bs, VERSION).Got? && Word32(bs).value == K_LIST && Supported(Parse(bs, VERSION).value.v)
    ensures Word32(bs).Got? && Word32(Word32(bs).rest).Got?
    ensures var body := Word32(bs).rest;
            var r, names := Parse(bs, VERSION), ReadNames(Word32(body).value, Word32(body).rest, VERSION);
            && names.Got? && bs == front + names.rest && r.value.v.Obj? && r.value.v.data.List?
            && AllSupported(r.value.v.data.elems)
            && Encode(r.value.v, VERSION) + r.rest == front + (EncodeAll(r.value.v.data.elems, VERSION) + r.rest)
  {
    ListSteps(bs);
    var body := Word32(bs).rest;
    var n, rest := Word32(body).value, Word32(body).rest;
    var r := Parse(bs, VERSION);
    hide PutU32, Word32, ReadNames, Encode, EncodeAll, EncodeNames, Parse, ParseAll;
    WordIsWritten(bs);
    WordIsWritten(body);
    NamesAreWritten(n, rest, VERSION, r.value.v);
    var names := EncodeNames(r.value.v, VERSION);
    front := PutU32(K_LIST) + (PutU32(n) + names);
    Regroup(PutU32(K_LIST), PutU32(n) + names, ReadNames(n, rest, VERSION).rest);
    Regroup(PutU32(n), names, ReadNames(n, rest, VERSION).rest);
    ListBytes(r.value.v, n, r.rest);
  }

  lemma ListBytes(v: SEXP, n: U32, tail: seq<Byte>)
    requires v.Obj? && v.data.List? && v.dim.Null? && Supported(v) && |v.data.elems| == n
    ensures Encode(v, VERSION) + tail ==
            (PutU32(K_LIST) + (PutU32(n) + EncodeNames(v, VERSION))) + (EncodeAll(v.data.elems, VERSION) + tail)
  {
    hide PutU32, EncodeNames, EncodeAll;
    assert Encode(v, VERSION) ==
           (PutU32(K_LIST) + PutU32(n)) + (EncodeNames(v, VERSION) + EncodeAll(v.data.elems, VERSION));
  }

  lemma SamePrefix(a: seq<Byte>, b: seq<Byte>, c: seq<Byte>)
    ensures a + b == a + c <==> b == c
  {
    if a + b == a + c {
      assert b == (a + b)[|a|..] == (a + c)[|a|..] == c;
    }
  }

  lemma {:induction false} AllAcceptedIsWrittenIff(n: nat, bs: seq<Byte>)
    requires ParseAll(n, bs, VERSION).Got?
    ensures AllAsWritten(n, bs) <==> AllWrapped(n, bs)
    decreases |bs|, 3
  {
    hide Parse, Encode, Wrapped;
    if n > 0 {
      var x := Parse(bs, VERSION);
      var xs := ParseAll(n - 1, x.rest, VERSION);
      AcceptedIsWrittenIff(bs);
      AllAcceptedIsWrittenIff(n - 1, x.rest);
      ReadIsWritable(bs, VERSION);
      ReadAllIsWritable(n - 1, x.rest, VERSION);
      var all := [x.value.v] + xs.value.v;
      assert all[1..] == xs.value.v;
      var first, others := Encode(x.value.v, VERSION), EncodeAll(xs.value.v, VERSION);
      Regroup(first, others, xs.rest);
      if AllAsWritten(n, bs) {
        WrittenPrefix(bs, x.value.v, others + xs.rest);
      }
    }
  }

  lemma WrapperBytes(w: SEXP, d: SEXP, dn: SEXP, tail: seq<Byte>)
    requires w.Obj? && d.Obj? && Supported(WithDim(w, d, dn))
    ensures Supported(d) && Supported(dn) && SupportedValue(w)
    ensures Encode(WithDim(w, d, dn), VERSION) + tail ==
            PutU32(K_ARRAY) + (Encode(d, VERSION) + (Encode(dn, VERSION) + (EncodeValue(w, VERSION) + tail)))
  {
    hide PutU32, EncodeAll, Payload;
    assert EncodeNames(WithDim(w, d, dn), VERSION) == EncodeNames(w, VERSION);
    assert EncodeValue(WithDim(w, d, dn), VERSION) == EncodeValue(w, VERSION);
  }

  /** What was read behind another tag has no dim, and is written without a wrapper. */
  lemma Unwrapped(bs: seq<Byte>)
    requires Parse(bs, VERSION).Got? && Word32(bs).value != K_ARRAY && Supported(Parse(bs, VERSION).value.v)
    ensures var v := Parse(bs, VERSION).value.v; Encode(v, VERSION) == EncodeValue(v, VERSION)
  {
    hide ReadVector, ParseAll, ReadNames;
  }

  lemma {:induction false} WrapperIsWrittenIff(bs: seq<Byte>)
    requires Parse(bs, VERSION).Got? && Word32(bs).value == K_ARRAY
    ensures AsWritten(bs) <==> Wrapped(bs)
    decreases |bs|, 1
  {
    ArraySteps(bs);
    hide PutU32, Word32, Encode, EncodeValue, Parse, ArrayAccepted;
    var body := Word32(bs).rest;
    var dim := Parse(body, VERSION);
    var dimnames := Parse(dim.rest, VERSION);
    ReadIsWritable(bs, VERSION);
    if dim.value.v.Null? {
      NullDimIsNotWritten(bs);
    } else {
      AcceptedIsWrittenIff(body);
      AcceptedIsWrittenIff(dim.rest);
      AcceptedIsWrittenIff(dimnames.rest);
      if AsWritten(bs) { WrittenIsWrapped(bs); }
      if Wrapped(bs) { WrappedIsWritten(bs); }
    }
  }

  /** A wrapper without dims is never written. */
  lemma NullDimIsNotWritten(bs: seq<Byte>)
    requires Parse(bs, VERSION).Got? && Word32(bs).value == K_ARRAY
    requires Parse(Word32(bs).rest, VERSION).Got? && Parse(Word32(bs).rest, VERSION).value.v.Null?
    ensures !AsWritten(bs)
  {
    ArraySteps(bs);
    hide PutU32, Word32, EncodeValue, Parse;
    var v := Parse(bs, VERSION).value.v;
    if AsWritten(bs) {
      assert Encode(v, VERSION) == EncodeValue(v, VERSION);
      ValueTag(v, Parse(bs, VERSION).rest);
    }
  }

  lemma WrittenIsWrapped(bs: seq<Byte>)
    requires Parse(bs, VERSION).Got? && Word32(bs).value == K_ARRAY && AsWritten(bs)
    requires Parse(Word32(bs).rest, VERSION).value.v.Obj?
    ensures Word32(bs).Got?
    ensures var body := Word32(bs).rest;
            && Parse(body, VERSION).Got? && AsWritten(body)
            && var r1 := Parse(body, VERSION).rest;
            && Parse(r1, VERSION).Got? && AsWritten(r1)
            && var r2 := Parse(r1, VERSION).rest;
            && Parse(r2, VERSION).Got? && AsWritten(r2) && Word32(r2).value != K_ARRAY
  {
    ArraySteps(bs);
    var body := Word32(bs).rest;
    var dim := Parse(body, VERSION);
    var dimnames := Parse(dim.rest, VERSION);
    var value := Parse(dimnames.rest, VERSION);
    var d, dn, w := dim.value.v, dimnames.value.v, value.value.v;
    assert w.Obj?;
    hide PutU32, Word32, Encode, EncodeValue, Parse, ArrayAccepted;
    WordIsWritten(bs);
    WrapperBytes(w, d, dn, value.rest);
    var t2 := EncodeValue(w, VERSION) + value.rest;
    var t1 := Encode(dn, VERSION) + t2;
    SamePrefix(PutU32(K_ARRAY), Encode(d, VERSION) + t1, body);
    WrittenPrefix(body, d, t1);
    WrittenPrefix(dim.rest, dn, t2);
    ValueTag(w, value.rest);
    ReadIsWritable(dimnames.rest, VERSION);
    Unwrapped(dimnames.rest);
  }

  lemma WrappedIsWritten(bs: seq<Byte>)
    requires Parse(bs, VERSION).Got? && Word32(bs).value == K_ARRAY
    requires Parse(Word32(bs).rest, VERSION).Got?
    requires var dim := Parse(Word32(bs).rest, VERSION);
             && dim.value.v.Obj? && AsWritten(Word32(bs).rest)
             && Parse(dim.rest, VERSION).Got? && AsWritten(dim.rest)
             && var r2 := Parse(dim.rest, VERSION).rest;
             && Parse(r2, VERSION).Got? && AsWritten(r2) && Word32(r2).Got? && Word32(r2).value != K_ARRAY
    ensures AsWritten(bs)
  {
    ArraySteps(bs);
    var dim := Parse(Word32(bs).rest, VERSION);
    var dimnames := Parse(dim.rest, VERSION);
    var value := Parse(dimnames.rest, VERSION);
    assert value.value.v.Obj?;
    hide PutU32, Word32, Encode, EncodeValue, Parse, ArrayAccepted;
    ReadIsWritable(bs, VERSION);
    WordIsWritten(bs);
    WrapperBytes(value.value.v, dim.value.v, dimnames.value.v, value.rest);
    Unwrapped(dimnames.rest);
  }

  /** So an accepted version 3 file, arrays or not, is the file written for the value read. */
  lemma AcceptedFileIsWrittenIff(file: seq<Byte>)
    requires FileVersion(file).Got? && FileVersion(file).value == VERSION
    requires ParseFile(file).Got? && ParseFile(file).rest == []
    ensures Supported(ParseFile(file).value.v)
    ensures FileBytes(ParseFile(file).value.v) == file <==> Wrapped(FileVersion(file).rest)
  {
    hide PutU32, Word32, Parse, Encode, Wrapped;
    WordIsWritten(file);
    WordIsWritten(Word32(file).rest);
    var body := FileVersion(file).rest;
    AcceptedIsWrittenIff(body);
    ReadIsWritable(body, VERSION);
    var v := ParseFile(file).value.v;
    assert Encode(v, VERSION) + [] == Encode(v, VERSION);
    var front := PutU32(MAGIC) + PutU32(VERSION);
    Regroup(PutU32(MAGIC), PutU32(VERSION), body);
    SamePrefix(front, Encode(v, VERSION), body);
  }

  /** The condition is met by everything the writer emits. */
  lemma EncodingIsWrapped(v: SEXP, tail: seq<Byte>)
    requires Supported(v) && InRange(v) && Legal(v)
    ensures Parse(Encode(v, VERSION) + tail, VERSION).Got? && Wrapped(Encode(v, VERSION) + tail)
  {
    hide Parse, Encode, Wrapped, Project;
    ParseEncoded(v, VERSION, tail);
    EncodeOfProjection(v, VERSION);
    AcceptedIsWrittenIff(Encode(v, VERSION) + tail);
  }

  /** An empty vector behind an array tag without dim and dimnames is accepted, and its array tag is
      not written again. */
  lemma EmptyWrapperIsAccepted()
    ensures var bs := PutU32(K_ARRAY) + (PutU32(K_NIL) + (PutU32(K_NIL) + Header(K_LOGICAL, 0)));
            && Parse(bs, VERSION) == Got(Item(Plain(Logicals([])), 1, 1), []) && !AsWritten(bs)
  {
    hide PutU32, Word32, Parse, Header;
    var nil, empty, none := PutU32(K_NIL), Header(K_LOGICAL, 0), Item(Null, 0, 0);
    var value := Item(Plain(Logicals([])), 1, 0);
    ParseHeaded(K_LOGICAL, 0, [], VERSION);
    assert empty == empty + [];
    ParseNil(empty, VERSION);
    ParseNil(nil + empty, VERSION);
    ParseTagged(nil + (nil + empty), VERSION);
    ParseArrayFrom(nil + (nil + empty), nil + empty, empty, [], VERSION,
                   none, none, value, Got(value.(arrays := 1), []));
    ReadWord(K_ARRAY, nil + (nil + empty));
    NullDimIsNotWritten(PutU32(K_ARRAY) + (nil + (nil + empty)));
  }
}
