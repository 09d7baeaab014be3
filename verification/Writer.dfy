/** The writer half of the serializer: an output stream that the routines advance in place. */
module Writer {
  import opened Bytes
  import opened RValues
  import opened Format

  /** An opened `ofstream`; writes are taken to succeed, so its state is the bytes so far. */
  class OutStream {
    var bytes: seq<Byte>

    constructor ()
      ensures bytes == []
    {
      bytes := [];
    }

    method WriteBytes(data: seq<Byte>)
      modifies this
      ensures bytes == old(bytes) + data
    {
      bytes := bytes + data;
    }

    method WriteU32(value: U32)
      modifies this
      ensures bytes == old(bytes) + PutU32(value)
    {
      WriteBytes(PutU32(value));
    }

    method WriteString(str: RString)
      modifies this
      ensures bytes == old(bytes) + EncodeString(str)
    {
      match str {
        case NaString => WriteU32(Word(-1));
        case Str(chars) =>
          WriteU32(Word(|chars|));
          if |chars| > 0 { WriteBytes(chars); }
      }
    }
  }

  lemma {:induction false} EncodeIntsSnoc(xs: seq<I32>, x: I32)
    ensures EncodeInts(xs + [x]) == EncodeInts(xs) + PutU32(Word(x))
  {
    if xs == [] {
      assert [x][1..] == [];
    } else {
      assert (xs + [x])[1..] == xs[1..] + [x];
      EncodeIntsSnoc(xs[1..], x);
    }
  }

  lemma {:induction false} EncodeStringsSnoc(ss: seq<RString>, s: RString)
    ensures EncodeStrings(ss + [s]) == EncodeStrings(ss) + EncodeString(s)
  {
    if ss == [] {
      assert [s][1..] == [];
    } else {
      assert (ss + [s])[1..] == ss[1..] + [s];
      EncodeStringsSnoc(ss[1..], s);
    }
  }

  lemma {:induction false} AllSupportedAt(vs: seq<SEXP>, i: nat)
    requires i < |vs|
    ensures AllSupported(vs) == (AllSupported(vs[..i]) && Supported(vs[i]) && AllSupported(vs[i + 1..]))
    ensures AllSupported(vs[..i + 1]) == (AllSupported(vs[..i]) && Supported(vs[i]))
  {
    if i > 0 {
      AllSupportedAt(vs[1..], i - 1);
      assert vs[..i][1..] == vs[1..][..i - 1] && vs[..i + 1][1..] == vs[1..][..i];
    }
  }

  lemma {:induction false} EncodeAllSnoc(vs: seq<SEXP>, v: SEXP, ver: nat)
    requires AllSupported(vs) && Supported(v)
    ensures AllSupported(vs + [v]) && EncodeAll(vs + [v], ver) == EncodeAll(vs, ver) + Encode(v, ver)
  {
    hide Encode, Supported;
    if vs == [] {
      assert [v][1..] == [];
    } else {
      assert (vs + [v])[1..] == vs[1..] + [v];
      EncodeAllSnoc(vs[1..], v, ver);
      assert EncodeAll(vs + [v], ver) == Encode(vs[0], ver) + (EncodeAll(vs[1..], ver) + Encode(v, ver));
    }
  }

  method WriteInts(out: OutStream, xs: seq<I32>)
    modifies out
    ensures out.bytes == old(out.bytes) + EncodeInts(xs)
  {
    for i := 0 to |xs|
      invariant out.bytes == old(out.bytes) + EncodeInts(xs[..i])
    {
      hide *;
      out.WriteU32(Word(xs[i]));
      EncodeIntsSnoc(xs[..i], xs[i]);
      Regroup(old(out.bytes), EncodeInts(xs[..i]), PutU32(Word(xs[i])));
      assert xs[..i + 1] == xs[..i] + [xs[i]];
    }
    assert xs[..|xs|] == xs;
  }

  method WriteStrings(out: OutStream, ss: seq<RString>)
    modifies out
    ensures out.bytes == old(out.bytes) + EncodeStrings(ss)
  {
    for i := 0 to |ss|
      invariant out.bytes == old(out.bytes) + EncodeStrings(ss[..i])
    {
      hide *;
      out.WriteString(ss[i]);
      EncodeStringsSnoc(ss[..i], ss[i]);
      Regroup(old(out.bytes), EncodeStrings(ss[..i]), EncodeString(ss[i]));
      assert ss[..i + 1] == ss[..i] + [ss[i]];
    }
    assert ss[..|ss|] == ss;
  }

  method WriteHeader(out: OutStream, tag: U32, length: nat)
    modifies out
    ensures out.bytes == old(out.bytes) + Header(tag, length)
  {
    out.WriteU32(tag);
    out.WriteU32(Truncate(length));
  }

  method WriteNames(out: OutStream, v: SEXP, ver: nat)
    modifies out
    ensures out.bytes == old(out.bytes) + EncodeNames(v, ver)
  {
    if ver >= 2 {
      var hasNames := HasNames(v);
      out.WriteU32(if hasNames then 1 else 0);
      if hasNames {
        hide EncodeStrings, PutU32;
        WriteStrings(out, v.names.data.strs);
        Regroup(old(out.bytes), PutU32(1), EncodeStrings(v.names.data.strs));
      }
    }
  }

  lemma EncodedArray(v: SEXP, ver: nat)
    requires Supported(v) && v.Obj? && v.dim.Obj?
    ensures Encode(v, ver) ==
            ((PutU32(K_ARRAY) + Encode(v.dim, ver)) + Encode(v.dimnames, ver)) + EncodeValue(v, ver)
  {
  }

  /** `ok` is false when the source throws; what was written before the throw stays in the file. */
  method WriteSEXP(out: OutStream, v: SEXP, ver: nat) returns (ok: bool)
    modifies out
    ensures ok == Supported(v)
    ensures ok ==> out.bytes == old(out.bytes) + Encode(v, ver)
    ensures old(out.bytes) <= out.bytes
    decreases v, 2
  {
    hide PutU32, EncodeValue;
    ghost var start := out.bytes;
    if v.Obj? && v.dim.Obj? {
      hide Encode;
      out.WriteU32(K_ARRAY);
      ok := WriteSEXP(out, v.dim, ver);
      if !ok { return; }
      ok := WriteSEXP(out, v.dimnames, ver);
      if !ok { return; }
      ok := WriteValue(out, v, ver);
      if ok {
        EncodedArray(v, ver);
        Regroup(start, PutU32(K_ARRAY), Encode(v.dim, ver));
        Regroup(start, PutU32(K_ARRAY) + Encode(v.dim, ver), Encode(v.dimnames, ver));
        Regroup(start, EncodeArray(v, ver), EncodeValue(v, ver));
      }
    } else {
      ok := WriteValue(out, v, ver);
    }
  }

  method WriteValue(out: OutStream, v: SEXP, ver: nat) returns (ok: bool)
    modifies out
    ensures ok == SupportedValue(v)
    ensures ok ==> out.bytes == old(out.bytes) + EncodeValue(v, ver)
    ensures old(out.bytes) <= out.bytes
    decreases v, 1
  {
    hide PutU32, EncodeInts, EncodeReals, EncodeStrings, EncodeAll, EncodeNames;
    ghost var start := out.bytes;
    if v.Null? {
      out.WriteU32(K_NIL);
      return true;
    }
    if v.data.Foreign? {
      return false;
    }
    WriteHeader(out, Tag(v.data), v.data.Length());
    ghost var head := Header(Tag(v.data), v.data.Length());
    if v.data.List? {
      WriteNames(out, v, ver);
      ok := WriteElements(out, v.data.elems, ver);
      if ok {
        Regroup(start + head, EncodeNames(v, ver), EncodeAll(v.data.elems, ver));
        Regroup(start, head, EncodeNames(v, ver) + EncodeAll(v.data.elems, ver));
      }
      return ok;
    }
    match v.data {
      case Logicals(xs) => WriteInts(out, xs);
      case Integers(xs) => WriteInts(out, xs);
      case Reals(xs) => out.WriteBytes(EncodeReals(xs));
      case Strings(ss) => WriteStrings(out, ss);
    }
    Regroup(start, head, Payload(v.data));
    return true;
  }

  method WriteElements(out: OutStream, es: seq<SEXP>, ver: nat) returns (ok: bool)
    modifies out
    ensures ok == AllSupported(es)
    ensures ok ==> out.bytes == old(out.bytes) + EncodeAll(es, ver)
    ensures old(out.bytes) <= out.bytes
    decreases es, 0
  {
    ghost var start := out.bytes;
    for i := 0 to |es|
      invariant AllSupported(es[..i])
      invariant out.bytes == start + EncodeAll(es[..i], ver)
    {
      hide *;
      AllSupportedAt(es, i);
      ok := WriteSEXP(out, es[i], ver);
      if !ok { return; }
      EncodeAllSnoc(es[..i], es[i], ver);
      Regroup(start, EncodeAll(es[..i], ver), Encode(es[i], ver));
      assert es[..i + 1] == es[..i] + [es[i]];
    }
    assert es[..|es|] == es;
    ok := true;
  }

  /** The content of the file `serializeSEXP` leaves, or None when it throws. */
  method Serialize(v: SEXP) returns (ok: bool, file: seq<Byte>)
    ensures ok == Supported(v)
    ensures ok ==> file == FileBytes(v)
  {
    var out := new OutStream();
    out.WriteU32(MAGIC);
    out.WriteU32(VERSION);
    ok := WriteSEXP(out, v, VERSION);
    file := out.bytes;
  }
}
