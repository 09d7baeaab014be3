/** One call of a task, from the master's argument list to the executor's. The runtime in between
    is assumed to write each parameter in the layout the executor reads, with texts for numbers
    and paths that the executor's readers take back. */
module EndToEnd {
  import opened Bytes
  import opened Decorator
  import opened Executor
  import opened Format
  import opened Matching
  import opened Options
  import opened Parameters
  import opened PathNames
  import opened RoundTrip
  import opened RValues
  import opened Texts
  import opened Tokens
  import opened Wire

  // ---------- The C++ serializer on both sides ----------

  function CppSave(v: SEXP): Option<seq<Byte>> {
    if Supported(v) then Some(FileBytes(v)) else None
  }

  function Load(files: Files, path: string): Option<SEXP> {
    if path !in files || ReaderKind(ExtractMethod(path)) != Cpp then None else
    match ParseFile(files[path]) case Failed(_) => None case Got(x, _) => Some(x.v)
  }

  function CodecOf(stoi: string -> Option<int>, stod: string -> Option<Double>, files: Files): Codec<SEXP> {
    Codec(stoi, stod, p => Load(files, p))
  }

  // ---------- The assumed runtime ----------

  /** How the runtime writes numbers and the paths of files. */
  datatype Runtime = Runtime(itoa: int -> string, dtoa: Double -> string, place: string -> string)

  ghost predicate Faithful(rt: Runtime, stoi: string -> Option<int>, stod: string -> Option<Double>) {
    && (forall i: I32 :: stoi(rt.itoa(i)) == Some(i))
    && (forall d: Double :: stod(rt.dtoa(d)) == Some(d))
    && (forall p: string | ':' !in p :: StripValue(rt.place(p)) == p)
  }

  /** For integers this is no assumption: decimal text is faithful. */
  lemma DecimalTextIsFaithful(dtoa: Double -> string, stod: string -> Option<Double>, place: string -> string)
    requires forall d: Double :: stod(dtoa(d)) == Some(d)
    requires forall p: string | ':' !in p :: StripValue(place(p)) == p
    ensures Faithful(Runtime(Itoa, dtoa, place), Stoi, stod)
  {
    forall i: I32 ensures Stoi(Itoa(i)) == Some(i) {
      IntegerTextRoundTrip(i);
    }
  }

  function ValueToken(f: Field, code: int, rt: Runtime): string {
    match f
    case IntField(i) => rt.itoa(i)
    case RealField(d) => rt.dtoa(d)
    case TextField(s) => if code == 8 then rt.itoa(|Split(s)|) else rt.place(s)
  }

  /** The kinds of the nine fields of a parameter. */
  predicate ParameterFields(f: seq<Field>) {
    && |f| == FIELDS && f[1].IntField? && f[1].i >= 0 && f[3].IntField?
    && f[4].TextField? && f[5].TextField? && f[6].TextField?
  }

  /** The entry for nine fields. An empty content type is sent as "null". */
  function EntryOfFields(f: seq<Field>, rt: Runtime): Entry
    requires ParameterFields(f)
  {
    Entry(Decimal(f[1].i), rt.itoa(f[3].i), f[4].s, f[5].s, if f[6].s == "" then "null" else f[6].s,
          ValueToken(f[0], f[1].i, rt), if f[1].i == 8 && f[0].TextField? then Split(f[0].s) else [])
  }

  /** The entry for the fields that `process_task` hands over for parameter i. */
  function EntryOf(t: Task, i: nat, rt: Runtime): Entry
    requires Sized(t) && i < |t.values| && ValueField(t.values[i], t.types[i]).Some?
  {
    EntryOfFields(FieldsOf(t, i), rt)
  }

  function EntriesOf(t: Task, n: nat, rt: Runtime): (es: seq<Entry>)
    requires Sized(t) && n <= |t.values|
    requires forall i | 0 <= i < n :: ValueField(t.values[i], t.types[i]).Some?
    ensures |es| == n && forall i | 0 <= i < n :: es[i] == EntryOf(t, i, rt)
  {
    seq(n, i requires 0 <= i < n => EntryOf(t, i, rt))
  }

  // ---------- Arguments that arrive ----------

  lemma CodeShape(v: SEXP, c: seq<string>)
    ensures var code := Classify(Given(v, c)).code;
            && (code == 4 ==> v.Obj? && v.data.Integers? && |v.data.ints| == 1)
            && (code == 7 ==> v.Obj? && v.data.Reals? && |v.data.reals| == 1)
            && (code == 8 ==> v.Obj? && v.data.Strings? && |v.data.strs| == 1)
  {
  }

  /** A string whose words are separated by single spaces, with none before or behind. */
  predicate Normalised(s: string) {
    Join(Split(s)) == s
  }

  /** What a caller can check beforehand: no symbol; a string is present and normalised; a value
      for a file is one the serializer takes; a future's file is there; and no class attribute
      makes something else look like a number or a string. */
  predicate Portable(a: Actual, files: Files) {
    a.Given? &&
    var l := Classify(a);
    if l.code == 4 || l.code == 7 then true
    else if l.code == 8 then
      CodeShape(a.v, a.classAttr);
      a.v.data.strs[0].Str? && Normalised(TextOf(a.v.data.strs[0]))
    else if l == Label(FILE, OBJECT) then Supported(a.v) && InRange(a.v) && Legal(a.v)
    else if l == Label(FILE, FUTURE) then OutputFile(a.v).Some? && Load(files, OutputFile(a.v).value).Some?
    else false
  }

  /** What the called function is to receive for it. */
  function Delivered(a: Actual, files: Files): Arg<SEXP>
    requires Portable(a, files)
  {
    var l := Classify(a);
    CodeShape(a.v, a.classAttr);
    if l.code == 4 then Whole(a.v.data.ints[0])
    else if l.code == 7 then Real(a.v.data.reals[0])
    else if l.code == 8 then Arg.Text(TextOf(a.v.data.strs[0]))
    else if l.content == OBJECT then Object(Project(a.v, VERSION))
    else Object(Load(files, OutputFile(a.v).value).value)
  }

  lemma DecimalCodes()
    ensures Decimal(4) == "4" && Decimal(7) == "7" && Decimal(8) == "8" && Decimal(10) == "10"
  {
    assert Decimal(1) == "1";
  }

  lemma {:induction false} FewerWordsThanCharacters(s: string)
    ensures |Split(s)| <= |s|
    decreases |s|
  {
    if s == [] {
    } else if Space(s[0]) {
      FewerWordsThanCharacters(s[1..]);
    } else {
      assert WordEnd(s) > 0;
      FewerWordsThanCharacters(s[WordEnd(s)..]);
    }
  }

  /** A string arrives with its words separated by single spaces, so it arrives unchanged exactly
      when it was normalised; the missing string arrives as "NA". */
  lemma StringArrives(t: Task, i: nat, a: Actual, rt: Runtime, codec: Codec<SEXP>)
    requires Sized(t) && i < |t.values| && Faithful(rt, codec.stoi, codec.stod)
    requires a.Given? && Classify(a).code == 8
    requires t.values[i] == AsIs(a) && Label(t.types[i], t.contents[i]) == Classify(a)
    ensures a.v.Obj? && a.v.data.Strings? && |a.v.data.strs| == 1 && ValueField(t.values[i], t.types[i]).Some?
    ensures var s, e := TextOf(a.v.data.strs[0]), EntryOf(t, i, rt);
            && Decodes(e, codec) && Meaning(e, codec) == Arg.Text(Join(Split(s)))
            && (Meaning(e, codec) == Arg.Text(s) <==> Normalised(s))
  {
    hide Split, Join, Decimal, StripValue;
    CodeShape(a.v, a.classAttr);
    DecimalCodes();
    var s := TextOf(a.v.data.strs[0]);
    assert |s| < 0x8000_0000;
    FewerWordsThanCharacters(s);
  }

  /** A scalar arrives with its value. */
  lemma ScalarArrives(t: Task, i: nat, a: Actual, rt: Runtime, stoi: string -> Option<int>,
                      stod: string -> Option<Double>, before: Files, after: Files)
    requires Sized(t) && i < |t.values| && Faithful(rt, stoi, stod)
    requires Portable(a, before) && Classify(a).code in {4, 7, 8}
    requires t.values[i] == AsIs(a) && Label(t.types[i], t.contents[i]) == Classify(a)
    ensures ValueField(t.values[i], t.types[i]).Some?
    ensures var codec := CodecOf(stoi, stod, after);
            Decodes(EntryOf(t, i, rt), codec) && Meaning(EntryOf(t, i, rt), codec) == Delivered(a, before)
  {
    hide Supported, InRange, Legal, Split, Join, Decimal, StripValue;
    CodeShape(a.v, a.classAttr);
    DecimalCodes();
    if Classify(a).code == 8 {
      FewerWordsThanCharacters(TextOf(a.v.data.strs[0]));
    }
  }

  /** What went through a file arrives as what the file loads to. */
  lemma FileArrives(t: Task, i: nat, path: string, v: SEXP, content: string, rt: Runtime, codec: Codec<SEXP>)
    requires Sized(t) && i < |t.values| && Faithful(rt, codec.stoi, codec.stod)
    requires t.values[i] == PathOf(path) && t.types[i] == FILE && t.contents[i] == content
    requires content == OBJECT || content == FUTURE
    requires ':' !in path && codec.load(path) == Some(v)
    ensures ValueField(t.values[i], t.types[i]).Some?
    ensures Decodes(EntryOf(t, i, rt), codec) && Meaning(EntryOf(t, i, rt), codec) == Object(v)
  {
    hide Decimal, StripValue;
    DecimalCodes();
  }

  lemma LoadsWhatWasSaved(files: Files, path: string, v: SEXP)
    requires Supported(v) && InRange(v) && Legal(v)
    requires path in files && files[path] == FileBytes(v) && ReaderKind(ExtractMethod(path)) == Cpp
    ensures Load(files, path) == Some(Project(v, VERSION))
  {
    FileRoundTrip(v);
  }

  lemma CppFileIsReadByCpp(dir: string, m: string, name: string, index: nat, uid: string)
    requires Lower(m) == "cpp" && SeparatorFree(name) && SeparatorFree(uid)
    ensures ReaderKind(ExtractMethod(ArgumentFile(dir, m, name, index, uid))) == Cpp
  {
    hide ArgumentFile, ExtractMethod;
    FileIsReadAsWritten(dir, m, name, index, uid);
  }

  // ---------- The whole call ----------

  /** The master's surroundings: where files go, the two methods, the unique names, the files so far. */
  datatype Master = Master(dir: string, m: string, mOut: string, uids: seq<string>, returnUid: string, files: Files)

  predicate EndsWith(s: string, suffix: string) {
    |s| >= |suffix| && s[|s| - |suffix|..] == suffix
  }

  /** Unique names are new, and neither they nor the formals' names contain a separator. */
  predicate Proper(ma: Master, slots: seq<Slot>) {
    && |ma.uids| == |slots| && FreshUids(ma.uids)
    && Lower(ma.m) == "cpp" && '-' !in ma.mOut
    && (forall i | 0 <= i < |slots| :: SeparatorFree(slots[i].name) && SeparatorFree(ma.uids[i]))
    && (forall i, p | 0 <= i < |slots| && p in ma.files :: !EndsWith(p, ma.uids[i]))
  }

  /** What `ExecuteTask` promises about its result. */
  predicate MadeFrom(t: Task, ma: Master, slots: seq<Slot>, hasReturn: bool)
    requires |ma.uids| == |slots|
  {
    && Parallel(t, |slots|, hasReturn)
    && Describes(t, ma.dir, ma.m, slots, ma.uids, CppSave, |slots|)
    && (hasReturn ==>
          && t.values[|slots|] == PathOf(ReturnFile(ma.dir, ma.mOut, ma.returnUid))
          && t.names[|slots|] == ReturnName(ma.mOut)
          && t.types[|slots|] == FILE && t.contents[|slots|] == "")
  }

  function FilesAfter(ma: Master, slots: seq<Slot>): Files
    requires |ma.uids| == |slots|
  {
    Written(ma.files, ma.dir, ma.m, slots, ma.uids, CppSave, |slots|)
  }

  /** Paths in a value token follow a colon, so they must not contain one. */
  predicate ColonFree(t: Task) {
    forall i | 0 <= i < |t.values| :: t.values[i].PathOf? ==> ':' !in t.values[i].path
  }

  lemma BuiltIsSized(t: Task, ma: Master, slots: seq<Slot>, hasReturn: bool)
    requires |ma.uids| == |slots| && MadeFrom(t, ma, slots, hasReturn)
    ensures Sized(t)
  {
    hide Classify;
    forall i | 0 <= i < |t.values| ensures t.types[i] in {0, 4, 7, 8, FILE} {
      if i < |slots| { KnownCodes(slots[i].actual); }
    }
  }

  lemma OldFileStays(ma: Master, slots: seq<Slot>, p: string)
    requires Proper(ma, slots) && p in ma.files
    ensures p in FilesAfter(ma, slots) && FilesAfter(ma, slots)[p] == ma.files[p]
  {
    forall i | 0 <= i < |slots| ensures p != PathFor(ma.dir, ma.m, slots, ma.uids, i) {
      var path := PathFor(ma.dir, ma.m, slots, ma.uids, i);
      assert path[|path| - |ma.uids[i]|..] == ma.uids[i];
      assert EndsWith(path, ma.uids[i]);
    }
    WrittenElsewhere(ma.files, ma.dir, ma.m, slots, ma.uids, CppSave, |slots|, p);
  }

  lemma ArgumentArrives(t: Task, i: nat, ma: Master, slots: seq<Slot>, hasReturn: bool, rt: Runtime,
                        stoi: string -> Option<int>, stod: string -> Option<Double>)
    requires Proper(ma, slots) && MadeFrom(t, ma, slots, hasReturn) && Sized(t) && ColonFree(t)
    requires Faithful(rt, stoi, stod) && i < |slots| && Portable(slots[i].actual, ma.files)
    ensures !t.values[i].IsSymbol() && ValueField(t.values[i], t.types[i]).Some?
    ensures var codec := CodecOf(stoi, stod, FilesAfter(ma, slots));
            && Decodes(EntryOf(t, i, rt), codec)
            && Meaning(EntryOf(t, i, rt), codec) == Delivered(slots[i].actual, ma.files)
            && EntryOf(t, i, rt).name == slots[i].name
  {
    var a, after := slots[i].actual, FilesAfter(ma, slots);
    var path := PathFor(ma.dir, ma.m, slots, ma.uids, i);
    assert PreparedAt(ma.dir, ma.m, slots, ma.uids, CppSave, i) == Some(t.values[i]);
    var l := Classify(a);
    hide Classify, Meaning, Decodes, Faithful, PathFor, FilesAfter, Proper;
    if l.code == 4 || l.code == 7 || l.code == 8 {
      ScalarArrives(t, i, a, rt, stoi, stod, ma.files, after);
    } else if l == Label(FILE, OBJECT) {
      assert t.values[i] == PathOf(path);
      ObjectLoads(i, ma, slots);
      FileArrives(t, i, path, Project(a.v, VERSION), OBJECT, rt, CodecOf(stoi, stod, after));
    } else {
      var p := OutputFile(a.v).value;
      assert t.values[i] == PathOf(p);
      OldFileStays(ma, slots, p);
      FileArrives(t, i, p, Load(ma.files, p).value, FUTURE, rt, CodecOf(stoi, stod, after));
    }
  }

  lemma ObjectLoads(i: nat, ma: Master, slots: seq<Slot>)
    requires Proper(ma, slots) && i < |slots| && Portable(slots[i].actual, ma.files)
    requires Classify(slots[i].actual) == Label(FILE, OBJECT)
    ensures Load(FilesAfter(ma, slots), PathFor(ma.dir, ma.m, slots, ma.uids, i)) ==
            Some(Project(slots[i].actual.v, VERSION))
  {
    var a := slots[i].actual;
    WrittenAt(ma.files, ma.dir, ma.m, slots, ma.uids, CppSave, |slots|, i);
    CppFileIsReadByCpp(ma.dir, ma.m, slots[i].name, i + 1, ma.uids[i]);
    LoadsWhatWasSaved(FilesAfter(ma, slots), PathFor(ma.dir, ma.m, slots, ma.uids, i), a.v);
  }

  // ---------- From one call to the next ----------

  /** The file of a return value written under the C++ method loads as the projection of the value. */
  lemma ReturnFileLoads(dir: string, mOut: string, uid: string, files: Files, v: SEXP)
    requires Lower(mOut) == "cpp" && SeparatorFree(uid) && Supported(v) && InRange(v) && Legal(v)
    requires ReturnFile(dir, mOut, uid) in files && files[ReturnFile(dir, mOut, uid)] == FileBytes(v)
    ensures Load(files, ReturnFile(dir, mOut, uid)) == Some(Project(v, VERSION))
  {
    hide ReturnFile, ExtractMethod;
    FileIsReadAsWritten(dir, mOut, "", 0, uid);
    LoadsWhatWasSaved(files, ReturnFile(dir, mOut, uid), v);
  }

  /** A future object stands for what its file loads to. */
  lemma FutureIsDelivered(path: string, files: Files, v: SEXP)
    requires Bytewise(path) && Load(files, path) == Some(v)
    ensures Portable(Future(path), files) && Delivered(Future(path), files) == Object(v)
  {
    hide Load, Classify, OutputFile, Future;
    FutureIsSent(path, "", None);
  }

  /** The result of one call as an argument of the next: the future object that the first call gave
      back arrives as the projection of the value that was written for it. */
  lemma FutureArrives(dir: string, mOut: string, uid: string, v: SEXP, t: Task, i: nat, ma: Master, slots: seq<Slot>,
                      hasReturn: bool, rt: Runtime, stoi: string -> Option<int>, stod: string -> Option<Double>)
    requires Lower(mOut) == "cpp" && SeparatorFree(uid) && Supported(v) && InRange(v) && Legal(v)
    requires var path := ReturnFile(dir, mOut, uid);
             && Bytewise(path) && path in ma.files && ma.files[path] == FileBytes(v)
             && i < |slots| && slots[i].actual == Future(path)
    requires Proper(ma, slots) && MadeFrom(t, ma, slots, hasReturn) && Sized(t) && ColonFree(t)
    requires Faithful(rt, stoi, stod)
    ensures i < |t.values| && t.values[i] == PathOf(ReturnFile(dir, mOut, uid))
    ensures ValueField(t.values[i], t.types[i]).Some?
    ensures var codec := CodecOf(stoi, stod, FilesAfter(ma, slots));
            && Decodes(EntryOf(t, i, rt), codec)
            && Meaning(EntryOf(t, i, rt), codec) == Object(Project(v, VERSION))
  {
    var path := ReturnFile(dir, mOut, uid);
    ReturnFileLoads(dir, mOut, uid, ma.files, v);
    FutureIsDelivered(path, ma.files, Project(v, VERSION));
    hide ReturnFile, Load, Portable, Delivered, Proper, Faithful, FilesAfter, Classify, ColonFree, Future;
    FutureIsSent(path, PathFor(ma.dir, ma.m, slots, ma.uids, i), SavedOf(slots[i].actual, CppSave));
    assert PreparedAt(ma.dir, ma.m, slots, ma.uids, CppSave, i) == Some(t.values[i]);
    ArgumentArrives(t, i, ma, slots, hasReturn, rt, stoi, stod);
  }

  /** The executor's arguments: the formals' names in order, each with what its value arrives as. */
  function Expected(slots: seq<Slot>, files: Files): seq<Named<SEXP>>
    requires forall i | 0 <= i < |slots| :: Portable(slots[i].actual, files)
  {
    seq(|slots|, i requires 0 <= i < |slots| => Named(slots[i].name, Delivered(slots[i].actual, files)))
  }

  lemma {:induction false} MeaningsAt<V>(es: seq<Entry>, codec: Codec<V>, i: nat)
    requires AllDecode(es, codec) && i < |es|
    ensures Decodes(es[i], codec) && Meanings(es, codec)[i] == Named(es[i].name, Meaning(es[i], codec))
  {
    hide Decodes, Meaning;
    if i > 0 { MeaningsAt(es[1..], codec, i - 1); }
  }

  lemma {:induction false} NoPlaceholders<V>(es: seq<Named<V>>)
    requires forall i | 0 <= i < |es| :: !Placeholder(es[i].name)
    ensures WithoutPlaceholders(es) == es
  {
    hide Placeholder;
    if es != [] {
      assert !Placeholder(es[0].name);
      NoPlaceholders(es[1..]);
    }
  }

  lemma {:induction false} EncodeSnoc(es: seq<Entry>, e: Entry)
    ensures EncodeEntries(es + [e]) == EncodeEntries(es) + EncodeEntry(e)
  {
    if es == [] {
      assert es + [e] == [e] && [e][1..] == [];
    } else {
      assert (es + [e])[0] == es[0] && (es + [e])[1..] == es[1..] + [e];
      EncodeSnoc(es[1..], e);
    }
  }

  /** The tokens around the parameters that the executor does not interpret. */
  datatype Filler = Filler(h1: string, h2: string, target: string, h4: string)

  /** The parameter tokens of a task, as the runtime is assumed to send them. */
  function RequestParams(t: Task, rt: Runtime, nodes: seq<string>, h: Filler): seq<string>
    requires Sized(t) && forall i | 0 <= i < |t.values| :: ValueField(t.values[i], t.types[i]).Some?
  {
    EncodeHeader(rt.itoa(|nodes|), nodes, h.h1, h.h2, h.target, h.h4, rt.itoa(t.numReturns), rt.itoa(|t.values|))
    + EncodeEntries(EntriesOf(t, |t.values|, rt))
  }

  /** A task made from portable arguments has no symbol among its values, and every value converts. */
  lemma AllConvert(t: Task, ma: Master, slots: seq<Slot>, hasReturn: bool)
    requires |ma.uids| == |slots| && MadeFrom(t, ma, slots, hasReturn)
    requires forall i | 0 <= i < |slots| :: Portable(slots[i].actual, ma.files)
    ensures forall i | 0 <= i < |t.values| :: !t.values[i].IsSymbol() && ValueField(t.values[i], t.types[i]).Some?
  {
    hide Portable, ReturnFile, ReturnName, PathFor;
    forall i | 0 <= i < |t.values| ensures !t.values[i].IsSymbol() && ValueField(t.values[i], t.types[i]).Some? {
      if i < |slots| {
        assert PreparedAt(ma.dir, ma.m, slots, ma.uids, CppSave, i) == Some(t.values[i]);
        PortableConverts(slots[i].actual, PathFor(ma.dir, ma.m, slots, ma.uids, i), ma.files);
      }
    }
  }

  lemma PortableConverts(a: Actual, path: string, files: Files)
    requires Portable(a, files)
    ensures var p, l := Prepare(a, path, SavedOf(a, CppSave)), Classify(a);
            p.Some? && !p.value.IsSymbol() && ValueField(p.value, l.code).Some?
  {
    hide InRange, Legal;
    CodeShape(a.v, a.classAttr);
  }

  lemma MeaningsAreExpected(es: seq<Entry>, codec: Codec<SEXP>, slots: seq<Slot>, files: Files)
    requires AllDecode(es, codec) && |es| == |slots|
    requires forall i | 0 <= i < |slots| :: Portable(slots[i].actual, files) && !Placeholder(slots[i].name)
    requires forall i | 0 <= i < |slots| ::
               es[i].name == slots[i].name && Meaning(es[i], codec) == Delivered(slots[i].actual, files)
    ensures WithoutPlaceholders(Meanings(es, codec)) == Expected(slots, files)
  {
    hide Portable, Decodes, Meaning, Delivered, Placeholder, WithoutPlaceholders;
    var ms := Meanings(es, codec);
    forall i | 0 <= i < |ms| ensures ms[i] == Expected(slots, files)[i] {
      MeaningsAt(es, codec, i);
    }
    assert ms == Expected(slots, files);
    NoPlaceholders(ms);
  }

  lemma ArgumentsArrive(t: Task, ma: Master, slots: seq<Slot>, hasReturn: bool, rt: Runtime,
                        stoi: string -> Option<int>, stod: string -> Option<Double>)
    requires Proper(ma, slots) && MadeFrom(t, ma, slots, hasReturn) && Sized(t) && ColonFree(t)
    requires Faithful(rt, stoi, stod) && forall i | 0 <= i < |slots| :: Portable(slots[i].actual, ma.files)
    requires forall i | 0 <= i < |slots| :: !Placeholder(slots[i].name)
    requires forall i | 0 <= i < |slots| :: ValueField(t.values[i], t.types[i]).Some?
    ensures var es, codec := EntriesOf(t, |slots|, rt), CodecOf(stoi, stod, FilesAfter(ma, slots));
            AllDecode(es, codec) && WithoutPlaceholders(Meanings(es, codec)) == Expected(slots, ma.files)
  {
    var es, codec := EntriesOf(t, |slots|, rt), CodecOf(stoi, stod, FilesAfter(ma, slots));
    hide Proper, Portable, ColonFree, Faithful, Describes, Decodes, Meaning, Delivered, EntryOf, Placeholder,
         FilesAfter, Expected, Meanings, WithoutPlaceholders;
    forall i | 0 <= i < |es|
      ensures Decodes(es[i], codec) && Meaning(es[i], codec) == Delivered(slots[i].actual, ma.files)
      ensures es[i].name == slots[i].name
    {
      ArgumentArrives(t, i, ma, slots, hasReturn, rt, stoi, stod);
    }
    MeaningsAreExpected(es, codec, slots, ma.files);
  }

  /** The return entry's two tokens that the executor looks at lead to the file and the method the
      master chose. */
  lemma ReturnArrives(t: Task, n: nat, ma: Master, rt: Runtime, stoi: string -> Option<int>,
                      stod: string -> Option<Double>)
    requires Sized(t) && n < |t.values| && Faithful(rt, stoi, stod) && '-' !in ma.mOut
    requires t.values[n] == PathOf(ReturnFile(ma.dir, ma.mOut, ma.returnUid)) && t.names[n] == ReturnName(ma.mOut)
    requires t.types[n] == FILE && ':' !in ReturnFile(ma.dir, ma.mOut, ma.returnUid)
    ensures ValueField(t.values[n], t.types[n]).Some?
    ensures var tokens := EncodeEntry(EntryOf(t, n, rt));
            && |tokens| == 6 && BeforeDash(tokens[3]) == ma.mOut
            && StripValue(tokens[5]) == ReturnFile(ma.dir, ma.mOut, ma.returnUid)
  {
    hide ReturnFile, ReturnName, StripValue, Decimal;
    ReturnNameMethod(ma.mOut);
  }

  /** What the executor rebuilds from the parameter tokens. */
  lemma ParametersArrive(t: Task, ma: Master, slots: seq<Slot>, hasReturn: bool, rt: Runtime,
                         stoi: string -> Option<int>, stod: string -> Option<Double>, nodes: seq<string>, h: Filler)
    requires Proper(ma, slots) && MadeFrom(t, ma, slots, hasReturn) && Sized(t) && ColonFree(t)
    requires Faithful(rt, stoi, stod) && forall i | 0 <= i < |slots| :: Portable(slots[i].actual, ma.files)
    requires forall i | 0 <= i < |slots| :: !Placeholder(slots[i].name)
    requires !ParseBool(h.target) && |nodes| < 0x8000_0000 && |t.values| < 0x8000_0000
    requires forall i | 0 <= i < |t.values| :: ValueField(t.values[i], t.types[i]).Some?
    ensures var params := RequestParams(t, rt, nodes, h);
            var b := Build(params, CodecOf(stoi, stod, FilesAfter(ma, slots)));
            && b.Some? && b.value.args == Expected(slots, ma.files) && b.value.numReturns == t.numReturns
            && (hasReturn ==> ReturnTarget(params, b.value.returnIndex) ==
                              Some((ReturnFile(ma.dir, ma.mOut, ma.returnUid), ma.mOut)))
  {
    hide Portable, Placeholder, Describes, Build, Expected, EncodeEntries, EncodeHeader, Meanings, AllDecode,
         WithoutPlaceholders, FilesAfter, EntryOf, Sized, ReturnFile, ReturnName, StripValue, ValueField, ParseBool,
         EncodeEntry;
    var n := |slots|;
    var es, all, codec := EntriesOf(t, n, rt), EntriesOf(t, |t.values|, rt), CodecOf(stoi, stod, FilesAfter(ma, slots));
    ArgumentsArrive(t, ma, slots, hasReturn, rt, stoi, stod);
    var tail := if hasReturn then EncodeEntry(EntryOf(t, n, rt)) else [];
    assert EncodeEntries(all) == EncodeEntries(es) + tail by {
      if hasReturn {
        assert all == es + [EntryOf(t, n, rt)];
        EncodeSnoc(es, EntryOf(t, n, rt));
      } else {
        assert all == es;
      }
    }
    var nodeCount, rets, count := rt.itoa(|nodes|), rt.itoa(t.numReturns), rt.itoa(|t.values|);
    WireParserInverse(nodeCount, nodes, h.h1, h.h2, h.target, h.h4, rets, count, es, tail, codec);
    var header := EncodeHeader(nodeCount, nodes, h.h1, h.h2, h.target, h.h4, rets, count);
    assert header + EncodeEntries(es) + tail == RequestParams(t, rt, nodes, h);
    if hasReturn {
      assert t.values[n].PathOf? && ':' !in t.values[n].path;
      ReturnArrives(t, n, ma, rt, stoi, stod);
      assert tail[3] == EncodeEntry(EntryOf(t, n, rt))[3] && tail[5] == EncodeEntry(EntryOf(t, n, rt))[5];
    }
  }

  /** End to end. For arguments matched by the rule, on the line the runtime is assumed to send, the
      executor calls the function with the formals' names in order and the values the caller
      supplied, by value or as the projection the serializer keeps; and it writes the result, under
      the method the master chose, to the file the master's future object points to. */
  lemma CallArrives(formals: seq<Slot>, values: seq<Slot>, t: Task, ma: Master, hasReturn: bool, rt: Runtime,
                    nodes: seq<string>, h: Filler, msg: TaskMessage, skipped: seq<string>, w: World<SEXP>)
    requires var slots := CallSlots(msg.func, formals, values);
             && Proper(ma, slots) && MadeFrom(t, ma, slots, hasReturn) && Sized(t) && ColonFree(t)
             && (forall i | 0 <= i < |slots| :: Portable(slots[i].actual, ma.files) && !Placeholder(slots[i].name))
             && (forall i | 0 <= i < |t.values| :: ValueField(t.values[i], t.types[i]).Some?)
             && w.codec == CodecOf(w.codec.stoi, w.codec.stod, FilesAfter(ma, slots))
    requires Faithful(rt, w.codec.stoi, w.codec.stod)
    requires !ParseBool(h.target) && |nodes| < 0x8000_0000 && |t.values| < 0x8000_0000
    requires msg.params == RequestParams(t, rt, nodes, h)
    requires |skipped| == 5 && Words(RequestTokens(msg, skipped))
    requires w.readable(msg.moduleFile) && w.source(msg.moduleFile) && w.defined(msg.func)
    ensures ParseTokens(Split(Join(RequestTokens(msg, skipped)))) == Some(msg)
    ensures CallResult(msg, w) == w.call(msg.func, Expected(CallSlots(msg.func, formals, values), ma.files))
    ensures CallResult(msg, w).Some? && hasReturn ==>
              (Completed(msg, w) <==>
               w.save(CallResult(msg, w).value, ReturnFile(ma.dir, ma.mOut, ma.returnUid), ma.mOut))
    ensures CallResult(msg, w).Some? && !hasReturn ==> Completed(msg, w)
  {
    hide Portable, Placeholder, Describes, Build, Expected, FilesAfter, ReturnFile, ValueField, ParseBool, Proper,
         RequestTokens, ReturnTarget, EntriesOf;
    var slots := CallSlots(msg.func, formals, values);
    hide CallSlots;
    RequestReadBack(msg, skipped);
    ParametersArrive(t, ma, slots, hasReturn, rt, w.codec.stoi, w.codec.stod, nodes, h);
    assert msg.params != [] by { HeaderIsNotEmpty(t, rt, nodes, h); }
  }

  lemma HeaderIsNotEmpty(t: Task, rt: Runtime, nodes: seq<string>, h: Filler)
    requires Sized(t) && forall i | 0 <= i < |t.values| :: ValueField(t.values[i], t.types[i]).Some?
    ensures RequestParams(t, rt, nodes, h) != []
  {
  }

  // ---------- An instance: one integer argument, no return value ----------

  function IntegerArgument(n: I32): Actual {
    Given(Plain(Integers([n])), [])
  }

  function IntegerTask(n: I32): Task {
    Task([AsIs(IntegerArgument(n))], ["x"], [4], [""], [0], [3], ["null"], ["1"], [0], 0)
  }

  const SOME_MASTER := Master("/w", "cpp", "cpp", ["1"], "2", map[])

  lemma IntegerTaskIsMade(n: I32)
    ensures var t, slots := IntegerTask(n), [Slot("x", IntegerArgument(n))];
            && MadeFrom(t, SOME_MASTER, slots, false) && Sized(t) && ColonFree(t)
            && Portable(slots[0].actual, map[]) && !Placeholder("x")
            && Delivered(slots[0].actual, map[]) == Whole(n)
            && ValueField(t.values[0], t.types[0]) == Some(IntField(n))
  {
    var a := IntegerArgument(n);
    ScalarsByValue(a.v);
    var t, slots := IntegerTask(n), [Slot("x", a)];
    assert Classify(a) == Label(4, "");
    hide Classify;
    assert PreparedAt("/w", "cpp", slots, ["1"], CppSave, 0) == Some(AsIs(a));
  }

  lemma SomeMasterIsProper(slots: seq<Slot>)
    requires |slots| == 1 && slots[0].name == "x"
    ensures Proper(SOME_MASTER, slots)
  {
    assert Lower("cpp") == "cpp";
  }

  lemma IntegerEntry(n: I32, rt: Runtime)
    requires rt.itoa(3) == "3"
    ensures Sized(IntegerTask(n)) && ValueField(IntegerTask(n).values[0], IntegerTask(n).types[0]).Some?
    ensures EntryOf(IntegerTask(n), 0, rt) == Entry("4", "3", "null", "x", "null", rt.itoa(n), [])
  {
    hide Decimal, MadeFrom, Portable, Delivered, Placeholder, ColonFree, Split, IntegerArgument;
    IntegerTaskIsMade(n);
    DecimalCodes();
  }

  lemma IntegerRequest(n: I32, dtoa: Double -> string, place: string -> string)
    ensures Sized(IntegerTask(n)) && ValueField(IntegerTask(n).values[0], IntegerTask(n).types[0]).Some?
    ensures RequestParams(IntegerTask(n), Runtime(Itoa, dtoa, place), ["node"], Filler("h", "h", "0", "h")) ==
            ["1", "node", "h", "h", "0", "h", "0", "1", "4", "3", "null", "x", "null", Itoa(n)]
  {
    var rt := Runtime(Itoa, dtoa, place);
    assert Itoa(0) == "0" && Itoa(1) == "1" && Itoa(3) == "3";
    hide Itoa, EntryOf, ValueField, Sized;
    IntegerEntry(n, rt);
    var es := EntriesOf(IntegerTask(n), 1, rt);
    assert es == [EntryOf(IntegerTask(n), 0, rt)];
    EncodeSnoc([], es[0]);
    assert [] + [es[0]] == es;
  }

  lemma IntegerSlots(f: string, n: I32)
    ensures var slots := [Slot("x", IntegerArgument(n))];
            && CallSlots(f, [Slot("x", Symbol(None))], [Slot("", IntegerArgument(n))]) == slots
            && FilesAfter(SOME_MASTER, slots) == SOME_MASTER.files == map[]
            && Portable(slots[0].actual, map[]) && Expected(slots, map[]) == [Named("x", Whole(n))]
  {
    var formals, values := [Slot("x", Symbol(None))], [Slot("", IntegerArgument(n))];
    IntegerTaskIsMade(n);
    PositionalWithoutNames(formals, values, 0);
    assert !ByFile(IntegerArgument(n)) by { ScalarsByValue(IntegerArgument(n).v); }
    hide IntegerArgument, ByFile, Portable, Delivered;
    var slots := [Slot("x", IntegerArgument(n))];
    assert Written(map[], "/w", "cpp", slots, ["1"], CppSave, 0) == map[];
    assert Written(map[], "/w", "cpp", slots, ["1"], CppSave, 1) == map[];
    assert Matched(formals, values)[0] == Slot("x", IntegerArgument(n));
  }

  lemma ZeroIsFalse()
    ensures !ParseBool("0")
  {
  }

  /** The conditions of `CallArrives` can be met: the called function gets the integer. */
  lemma IntegerCallArrives(n: I32, dtoa: Double -> string, place: string -> string, msg: TaskMessage,
                           skipped: seq<string>, w: World<SEXP>)
    requires forall d: Double :: w.codec.stod(dtoa(d)) == Some(d)
    requires forall p: string | ':' !in p :: StripValue(place(p)) == p
    requires w.codec == CodecOf(Stoi, w.codec.stod, map[])
    requires msg.params == ["1", "node", "h", "h", "0", "h", "0", "1", "4", "3", "null", "x", "null", Itoa(n)]
    requires |skipped| == 5 && Words(RequestTokens(msg, skipped))
    requires w.readable(msg.moduleFile) && w.source(msg.moduleFile) && w.defined(msg.func)
    ensures CallResult(msg, w) == w.call(msg.func, [Named("x", Whole(n))])
  {
    hide Proper, MadeFrom, ColonFree, Portable, Delivered, Expected, FilesAfter, RequestParams, Faithful, CallSlots,
         RequestTokens, Split, Join, ParseTokens, Itoa, Classify, Placeholder, ValueField, IntegerArgument, Sized,
         ParseBool, Completed, ReturnFile, CallResult, Words;
    var formals, values := [Slot("x", Symbol(None))], [Slot("", IntegerArgument(n))];
    IntegerSlots(msg.func, n);
    IntegerTaskIsMade(n);
    SomeMasterIsProper([Slot("x", IntegerArgument(n))]);
    IntegerRequest(n, dtoa, place);
    DecimalTextIsFaithful(dtoa, w.codec.stod, place);
    assert !ParseBool("0") by { ZeroIsFalse(); }
    CallArrives(formals, values, IntegerTask(n), SOME_MASTER, false, Runtime(Itoa, dtoa, place), ["node"],
                Filler("h", "h", "0", "h"), msg, skipped, w);
  }

  // ---------- The master's side as one method ----------

  lemma CleanedIsSized(t: Task, ma: Master, slots: seq<Slot>, hasReturn: bool)
    requires |ma.uids| == |slots| && MadeFrom(t, ma, slots, hasReturn)
    ensures Sized(t.(values := WithoutSymbols(t.values)))
  {
    BuiltIsSized(t, ma, slots, hasReturn);
  }

  lemma AllPrepared(ma: Master, slots: seq<Slot>)
    requires |ma.uids| == |slots| && forall i | 0 <= i < |slots| :: Portable(slots[i].actual, ma.files)
    ensures forall i | 0 <= i < |slots| :: PreparedAt(ma.dir, ma.m, slots, ma.uids, CppSave, i).Some?
  {
    hide Portable, Prepare;
    forall i | 0 <= i < |slots| ensures PreparedAt(ma.dir, ma.m, slots, ma.uids, CppSave, i).Some? {
      PortableConverts(slots[i].actual, PathFor(ma.dir, ma.m, slots, ma.uids, i), ma.files);
    }
  }

  /** The surroundings of a call of `Submit` with as many unique names as it needs. */
  function MasterFor(dir: string, m: string, mOut: string, uid: nat -> string, returnUid: string, files: Files,
                     n: nat): (ma: Master)
    ensures |ma.uids| == n
  {
    Master(dir, m, mOut, seq(n, (i: nat) => uid(i)), returnUid, files)
  }

  /** `rcompss_execute_decorated_task`: match, prepare, clean, unroll; null is an R error. The block
      that is handed to the runtime holds the nine fields of every parameter. With portable values,
      none of them NULL, there is no error, and the parameters are those made from the values that
      the matching rule chooses, for each formal in order, and the return parameter behind them. */
  method Submit(f: string, formals: seq<Slot>, values: seq<Slot>, dir: string, m: string, mOut: string,
                uid: nat -> string, returnUid: string, files: Files, hasReturn: bool)
    returns (block: ParameterBlock?, after: Files)
    requires DistinctNames(formals)
    ensures block != null ==>
              && block.Shaped()
              && (forall i | 0 <= i < |block.task.values| ::
                    ValueField(block.task.values[i], block.task.types[i]).Some?)
              && (forall i, k | 0 <= i < |block.task.values| && 0 <= k < FIELDS ::
                    block.Deref(block.unrolled[FIELDS * i + k]) == Some(FieldsOf(block.task, i)[k]))
    ensures var slots := CallSlots(f, formals, values);
            var ma := MasterFor(dir, m, mOut, uid, returnUid, files, |slots|);
            (OnlyDots(formals) || (!HasName(formals, DOTS) && NoNull(formals, values, |formals|))) &&
            (forall i | 0 <= i < |slots| :: Portable(slots[i].actual, files)) ==>
              block != null && MadeFrom(block.task, ma, slots, hasReturn) && after == FilesAfter(ma, slots)
  {
    hide Portable, NoNull, CallSlots, OnlyDots, PreparedAt, ValueField, FieldsOf, ParameterBlock.Deref, ReturnFile,
         ReturnName, Parallel, Describes, Sized, Written, WithoutSymbols;
    block, after := null, files;
    var matched := MatchArguments(f, formals, values);
    if matched.None? { return; }
    var slots := matched.value;
    var ma := MasterFor(dir, m, mOut, uid, returnUid, files, |slots|);
    var prepared, written := ExecuteTask(files, dir, m, mOut, slots, hasReturn, ma.uids, returnUid, CppSave);
    after := written;
    ghost var fine := forall i | 0 <= i < |slots| :: Portable(slots[i].actual, files);
    if fine { AllPrepared(ma, slots); }
    if prepared.None? { return; }
    var clean := CleanValues(prepared.value.values);
    CleanedIsSized(prepared.value, ma, slots, hasReturn);
    if fine {
      AllConvert(prepared.value, ma, slots, hasReturn);
      NothingToClean(prepared.value.values);
    }
    var t := prepared.value.(values := clean);
    assert fine ==> t == prepared.value;
    var filled := new ParameterBlock(t);
    var ok := filled.Fill();
    if ok { block := filled; }
  }
}
