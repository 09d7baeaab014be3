/** From matched arguments to the parameters of a task: classification, serialization of what is
    not a scalar, and the parallel vectors that describe each parameter. */
module Decorator {
  import opened Bytes
  import opened Matching
  import opened Options
  import opened PathNames
  import opened RValues

  const FUTURE := "future_object"
  const OBJECT := "object"
  const OUTPUT := "outputfile"
  const FILE := 10

  /** `Rcpp::as<std::string>` of a CHARSXP: bytes as they are, and "NA" for the missing string. */
  function TextOf(s: RString): string {
    match s
    case NaString => "NA"
    case Str(cs) => seq(|cs|, i requires 0 <= i < |cs| => cs[i] as char)
  }

  lemma TextOfIs(s: RString)
    ensures s.NaString? ==> TextOf(s) == "NA"
    ensures s.Str? ==> |TextOf(s)| == |s.chars| && forall i | 0 <= i < |s.chars| :: TextOf(s)[i] as int == s.chars[i]
  {
  }

  /** A text of single-byte characters as R holds it. */
  predicate Bytewise(s: string) {
    |s| < 0x8000_0000 && forall i | 0 <= i < |s| :: s[i] as int < 256
  }

  function CharsOf(s: string): (cs: Chars)
    requires Bytewise(s)
    ensures TextOf(Str(cs)) == s
  {
    seq(|s|, i requires 0 <= i < |s| => s[i] as int)
  }

  // ---------- Classification ----------

  function TypeOf(v: SEXP): string {
    if v.Null? then "NULL" else
    match v.data
    case Logicals(_) => "logical"
    case Integers(_) => "integer"
    case Reals(_) => "double"
    case Strings(_) => "character"
    case List(_) => "list"
    case Foreign(_) => "other"
  }

  /** R's `class`: the attribute if there is one, else the implicit class. */
  function ClassOf(v: SEXP, classAttr: seq<string>): (c: seq<string>)
    ensures c != []
  {
    if classAttr != [] then classAttr
    else if v.Obj? && v.dim.Obj? then (if v.dim.data.Length() == 2 then ["matrix", "array"] else ["array"])
    else if v.Obj? && v.data.Reals? then ["numeric"]
    else [TypeOf(v)]
  }

  datatype Look = Look(classes: seq<string>, kind: string, length: nat)

  /** `class`, `typeof` and `length` of an argument; a symbol is looked up, which may fail. */
  function LookAt(a: Actual): Option<Look> {
    match a
    case Given(v, c) => Some(Look(ClassOf(v, c), TypeOf(v), if v.Null? then 0 else v.data.Length()))
    case Symbol(None) => None
    case Symbol(Some((v, c))) => Some(Look(ClassOf(v, c), TypeOf(v), if v.Null? then 0 else v.data.Length()))
  }

  function MapType(kind: string): int {
    if kind == "logical" then 0 else if kind == "integer" then 4 else if kind == "double" then 7
    else if kind == "character" then 8 else FILE
  }

  datatype Label = Label(code: int, content: string)

  function ProcessArgument(look: Look): Label {
    var first := if look.classes == [] then "" else look.classes[0];
    if |look.classes| == 1 && look.length == 1 && first in ["integer", "numeric", "character"] then
      Label(MapType(look.kind), "")
    else Label(FILE, if |look.classes| == 1 && first == FUTURE then FUTURE else OBJECT)
  }

  function Classify(a: Actual): Label {
    match LookAt(a) case None => Label(FILE, OBJECT) case Some(look) => ProcessArgument(look)
  }

  predicate Scalar(v: SEXP) {
    v.Obj? && v.dim.Null? && v.data.Length() == 1
  }

  /** Without a class attribute, just the integer, double and character scalars that are not arrays
      travel by value, under the code of their type; a logical scalar goes to a file like the rest. */
  lemma ScalarsByValue(v: SEXP)
    ensures var l := Classify(Given(v, []));
            && (l.code == 4 <==> Scalar(v) && v.data.Integers?)
            && (l.code == 7 <==> Scalar(v) && v.data.Reals?)
            && (l.code == 8 <==> Scalar(v) && v.data.Strings?)
            && (l.content == "" <==> l.code in {4, 7, 8})
            && (l.code !in {4, 7, 8} ==> l == Label(FILE, OBJECT))
  {
    var names := ["integer", "numeric", "character"];
    assert "integer" == names[0] && "numeric" == names[1] && "character" == names[2];
    assert forall x <- names :: x == "integer" || x == "numeric" || x == "character";
  }

  /** A class attribute decides: one of three names on a value of length one makes it travel by value,
      under the code of its type; "future_object" and nothing else makes it a future. */
  lemma ClassifiedByClass(v: SEXP, c: seq<string>)
    requires c != []
    ensures var l := Classify(Given(v, c));
            var named := |c| == 1 && c[0] in {"integer", "numeric", "character"};
            var single := v.Obj? && v.data.Length() == 1;
            && (named && single ==>
                  && l.content == ""
                  && l.code == (if v.data.Logicals? then 0 else if v.data.Integers? then 4 else if v.data.Reals? then 7
                                else if v.data.Strings? then 8 else 10))
            && (c == ["future_object"] ==> l == Label(10, "future_object"))
            && (!(named && single) && c != ["future_object"] ==> l == Label(10, "object"))
  {
    var names := ["integer", "numeric", "character"];
    assert "integer" == names[0] && "numeric" == names[1] && "character" == names[2];
    assert forall x <- names :: x == "integer" || x == "numeric" || x == "character";
    assert |c| == 1 ==> c == [c[0]];
  }

  /** A value is taken for a future exactly when that is its class attribute. */
  lemma FutureIff(v: SEXP, c: seq<string>)
    ensures Classify(Given(v, c)).content == "future_object" <==> c == ["future_object"]
  {
    if c == [] { ScalarsByValue(v); } else { ClassifiedByClass(v, c); }
  }

  /** A symbol counts as what R finds under it; if it finds nothing, as an object for a file. */
  lemma SymbolsAreLookedUp(v: SEXP, c: seq<string>)
    ensures Classify(Symbol(Some((v, c)))) == Classify(Given(v, c)) && Classify(Symbol(None)) == Label(10, "object")
  {
  }

  lemma KnownCodes(a: Actual)
    ensures Classify(a).code in {0, 4, 7, 8, FILE}
    ensures Classify(a).code != FILE ==> Classify(a).content == ""
  {
  }

  // ---------- Values that become files ----------

  /** A parameter's value: the argument itself, or the path of a file. */
  datatype Processed = AsIs(a: Actual) | PathOf(path: string)
  {
    predicate IsSymbol() {
      AsIs? && a.Symbol?
    }
  }

  /** The first string with this text. */
  function FindText(strs: seq<RString>, name: string): (r: Option<nat>)
    ensures r.None? ==> forall i | 0 <= i < |strs| :: TextOf(strs[i]) != name
    ensures r.Some? ==> r.value < |strs| && TextOf(strs[r.value]) == name
    ensures r.Some? ==> forall i | 0 <= i < r.value :: TextOf(strs[i]) != name
  {
    if strs == [] then None
    else if TextOf(strs[0]) == name then Some(0)
    else match FindText(strs[1..], name) case None => None case Some(i) => Some(i + 1)
  }

  /** `fo["outputfile"]` as one string; None is the exception. */
  function OutputFile(v: SEXP): Option<string> {
    if !HasNames(v) then None else
    match FindText(v.names.data.strs, OUTPUT)
    case None => None
    case Some(i) =>
      if i >= |v.data.elems| then None else
      var e := v.data.elems[i];
      if e.Obj? && e.data.Strings? && |e.data.strs| == 1 then Some(TextOf(e.data.strs[0])) else None
  }

  /** The element named "outputfile", when it is one string; of several elements of that name, the
      first. */
  lemma OutputFileIs(v: SEXP, i: nat)
    requires HasNames(v) && i < |v.data.elems| && TextOf(v.names.data.strs[i]) == "outputfile"
    requires forall j | 0 <= j < i :: TextOf(v.names.data.strs[j]) != "outputfile"
    ensures var e := v.data.elems[i];
            OutputFile(v) ==
            if e.Obj? && e.data.Strings? && |e.data.strs| == 1 then Some(TextOf(e.data.strs[0])) else None
  {
  }

  /** What a call with a return value gives back: a list of class "future_object" whose element
      "outputfile" is the path. */
  function Future(path: string): Actual
    requires Bytewise(path)
  {
    Given(Obj(List([Plain(Strings([Str(CharsOf(path))]))]), Plain(Strings([Str(CharsOf("outputfile"))])),
              Null, Null, []), ["future_object"])
  }

  /** Of such a list the path is sent, and it is not serialized. */
  lemma FutureIsSent(path: string, own: string, saved: Option<seq<Byte>>)
    requires Bytewise(path)
    ensures Classify(Future(path)) == Label(10, "future_object") && OutputFile(Future(path).v) == Some(path)
    ensures Prepare(Future(path), own, saved) == Some(PathOf(path)) && !ByFile(Future(path))
  {
    var f := Future(path);
    ClassifiedByClass(f.v, f.classAttr);
    assert HasNames(f.v);
    OutputFileIs(f.v, 0);
  }

  /** What is sent, case by case: by value, as a file of its own, as the file of a future; a symbol
      that names a future, a future without path and a value that cannot be saved are errors. */
  lemma PreparedIs(a: Actual, path: string, saved: Option<seq<Byte>>)
    ensures Classify(a).content == "" ==> Prepare(a, path, saved) == Some(AsIs(a))
    ensures Classify(a).content == "object" ==>
              Prepare(a, path, saved) ==
              if a.Symbol? then Some(AsIs(a)) else if saved.Some? then Some(PathOf(path)) else None
    ensures Classify(a).content == "future_object" && a.Symbol? ==> Prepare(a, path, saved) == None
    ensures Classify(a).content == "future_object" && a.Given? ==>
              Prepare(a, path, saved) ==
              (if OutputFile(a.v).Some? then Some(PathOf(OutputFile(a.v).value)) else None)
  {
    KnownCodes(a);
  }

  predicate ByFile(a: Actual) {
    Classify(a) == Label(FILE, OBJECT) && a.Given?
  }

  /** What is sent for an argument whose file, if it needs one, is `path`; None is an exception. */
  function Prepare(a: Actual, path: string, saved: Option<seq<Byte>>): Option<Processed> {
    var l := Classify(a);
    if l.code == FILE && l.content == OBJECT then
      if a.Symbol? then Some(AsIs(a)) else if saved.None? then None else Some(PathOf(path))
    else if l.code == FILE && l.content == FUTURE then
      if a.Symbol? then None else
      match OutputFile(a.v) case None => None case Some(p) => Some(PathOf(p))
    else Some(AsIs(a))
  }

  /** Serialization under the input method; None is an exception. */
  type Saver = SEXP -> Option<seq<Byte>>

  function SavedOf(a: Actual, save: Saver): Option<seq<Byte>> {
    if a.Given? then save(a.v) else None
  }

  function PathFor(dir: string, m: string, slots: seq<Slot>, uids: seq<string>, i: nat): string
    requires i < |slots| == |uids|
  {
    ArgumentFile(dir, m, slots[i].name, i + 1, uids[i])
  }

  function PreparedAt(dir: string, m: string, slots: seq<Slot>, uids: seq<string>, save: Saver,
                      i: nat): Option<Processed>
    requires i < |slots| == |uids|
  {
    Prepare(slots[i].actual, PathFor(dir, m, slots, uids, i), SavedOf(slots[i].actual, save))
  }

  type Files = map<string, seq<Byte>>

  /** The files after the first n arguments. */
  function Written(files: Files, dir: string, m: string, slots: seq<Slot>, uids: seq<string>, save: Saver,
                   n: nat): Files
    requires n <= |slots| == |uids|
  {
    if n == 0 then files else
    var before := Written(files, dir, m, slots, uids, save, n - 1);
    var a := slots[n - 1].actual;
    if ByFile(a) && save(a.v).Some? then before[PathFor(dir, m, slots, uids, n - 1) := save(a.v).value] else before
  }

  predicate FreshUids(uids: seq<string>) {
    && (forall i, j | 0 <= i < j < |uids| :: uids[i] != uids[j] && |uids[i]| == |uids[j]|)
  }

  /** Every argument that went to a file is found there, under its own name. */
  lemma {:induction false} WrittenAt(files: Files, dir: string, m: string, slots: seq<Slot>, uids: seq<string>,
                                     save: Saver, n: nat, i: nat)
    requires i < n <= |slots| == |uids| && FreshUids(uids)
    requires ByFile(slots[i].actual) && save(slots[i].actual.v).Some?
    ensures var path := PathFor(dir, m, slots, uids, i);
            var w := Written(files, dir, m, slots, uids, save, n);
            path in w && w[path] == save(slots[i].actual.v).value
  {
    hide ByFile;
    if i < n - 1 {
      WrittenAt(files, dir, m, slots, uids, save, n - 1, i);
      if PathFor(dir, m, slots, uids, i) == PathFor(dir, m, slots, uids, n - 1) {
        DistinctUidsDistinctFiles(dir, m, slots[i].name, i + 1, uids[i], dir, m, slots[n - 1].name, n, uids[n - 1]);
        assert false;
      }
    }
  }

  /** Nothing else is touched. */
  lemma {:induction false} WrittenElsewhere(files: Files, dir: string, m: string, slots: seq<Slot>, uids: seq<string>,
                                            save: Saver, n: nat, p: string)
    requires n <= |slots| == |uids| && p in files
    requires forall i | 0 <= i < n :: p != PathFor(dir, m, slots, uids, i)
    ensures var w := Written(files, dir, m, slots, uids, save, n); p in w && w[p] == files[p]
  {
    hide ByFile, PathFor;
    if n > 0 { WrittenElsewhere(files, dir, m, slots, uids, save, n - 1, p); }
  }

  // ---------- The parallel vectors ----------

  datatype Task = Task(values: seq<Processed>, names: seq<string>, types: seq<int>, contents: seq<string>,
                       directions: seq<int>, streams: seq<int>, prefixes: seq<string>, weights: seq<string>,
                       renames: seq<int>, numReturns: nat)

  function Repeat<T>(x: T, n: nat): (s: seq<T>)
    ensures |s| == n && forall i | 0 <= i < n :: s[i] == x
  {
    seq(n, _ => x)
  }

  /** All eight vectors have one entry for each argument and one more for a return value, which is
      the only one with direction out. */
  predicate Parallel(t: Task, n: nat, hasReturn: bool) {
    var k := if hasReturn then n + 1 else n;
    && |t.values| == |t.names| == |t.types| == |t.contents| == k
    && |t.directions| == |t.streams| == |t.prefixes| == |t.weights| == |t.renames| == k
    && t.numReturns == (if hasReturn then 1 else 0)
    && (forall i | 0 <= i < k ::
          && t.directions[i] == (if i == n then 1 else 0) && t.renames[i] == (if i == n then 1 else 0)
          && t.streams[i] == 3 && t.prefixes[i] == "null" && t.weights[i] == "1")
  }

  predicate Describes(t: Task, dir: string, m: string, slots: seq<Slot>, uids: seq<string>, save: Saver, n: nat)
    requires n <= |slots| == |uids|
  {
    && n <= |t.values| && n <= |t.names| && n <= |t.types| && n <= |t.contents|
    && (forall i | 0 <= i < n ::
          && PreparedAt(dir, m, slots, uids, save, i) == Some(t.values[i])
          && t.names[i] == slots[i].name
          && Label(t.types[i], t.contents[i]) == Classify(slots[i].actual))
  }

  method ProcessTaskMetadata(n: nat, hasReturn: bool)
    returns (directions: seq<int>, streams: seq<int>, prefixes: seq<string>, weights: seq<string>, renames: seq<int>)
    ensures var k := if hasReturn then n + 1 else n;
            && |directions| == |streams| == |prefixes| == |weights| == |renames| == k
            && (forall i | 0 <= i < k ::
                  && directions[i] == (if i == n then 1 else 0) && renames[i] == (if i == n then 1 else 0)
                  && streams[i] == 3 && prefixes[i] == "null" && weights[i] == "1")
  {
    directions := Repeat(0, n);
    renames := Repeat(0, n);
    if hasReturn {
      directions := directions + [1];
      streams := Repeat(3, n + 1);
      prefixes := Repeat("null", n + 1);
      weights := Repeat("1", n + 1);
      renames := renames + [1];
    } else {
      streams := Repeat(3, n);
      prefixes := Repeat("null", n);
      weights := Repeat("1", n);
    }
  }

  lemma OwnFileIsSent(dir: string, m: string, slots: seq<Slot>, uids: seq<string>, save: Saver, i: nat, p: Processed)
    requires i < |slots| == |uids| && ByFile(slots[i].actual)
    requires PreparedAt(dir, m, slots, uids, save, i) == Some(p)
    ensures save(slots[i].actual.v).Some? && p == PathOf(ArgumentFile(dir, m, slots[i].name, i + 1, uids[i]))
  {
    hide Classify, ArgumentFile;
    PreparedIs(slots[i].actual, PathFor(dir, m, slots, uids, i), SavedOf(slots[i].actual, save));
  }

  /** `rcompss_execute_task`: its parameters and the files behind them. It fails just
      when some argument cannot be prepared. */
  method ExecuteTask(files: Files, dir: string, m: string, mOut: string, slots: seq<Slot>, hasReturn: bool,
                     uids: seq<string>, returnUid: string, save: Saver) returns (r: Option<Task>, after: Files)
    requires |uids| == |slots|
    ensures r.Some? <==> forall i | 0 <= i < |slots| :: PreparedAt(dir, m, slots, uids, save, i).Some?
    ensures r.Some? ==>
              && Parallel(r.value, |slots|, hasReturn)
              && Describes(r.value, dir, m, slots, uids, save, |slots|)
              && after == Written(files, dir, m, slots, uids, save, |slots|)
    ensures r.Some? ==> forall i | 0 <= i < |slots| && ByFile(slots[i].actual) ::
                          && save(slots[i].actual.v).Some?
                          && r.value.values[i] == PathOf(ArgumentFile(dir, m, slots[i].name, i + 1, uids[i]))
    ensures r.Some? && hasReturn ==>
              && r.value.values[|slots|] == PathOf(ReturnFile(dir, mOut, returnUid))
              && r.value.names[|slots|] == ReturnName(mOut)
              && r.value.types[|slots|] == FILE && r.value.contents[|slots|] == ""
  {
    hide Classify, ReturnFile, ReturnName, ArgumentFile;
    var n := |slots|;
    after := files;
    var names, types, contents := [], [], [];
    for i := 0 to n
      invariant |names| == |types| == |contents| == i
      invariant forall j | 0 <= j < i ::
                  names[j] == slots[j].name && Label(types[j], contents[j]) == Classify(slots[j].actual)
    {
      var l := Classify(slots[i].actual);
      names, types, contents := names + [slots[i].name], types + [l.code], contents + [l.content];
    }
    var directions, streams, prefixes, weights, renames := ProcessTaskMetadata(n, hasReturn);
    var values := [];
    for i := 0 to n
      invariant |values| == i
      invariant forall j | 0 <= j < i :: PreparedAt(dir, m, slots, uids, save, j) == Some(values[j])
      invariant after == Written(files, dir, m, slots, uids, save, i)
    {
      var a := slots[i].actual;
      var path := PathFor(dir, m, slots, uids, i);
      var saved := SavedOf(a, save);
      var p := Prepare(a, path, saved);
      assert p == PreparedAt(dir, m, slots, uids, save, i);
      if p.None? { return None, after; }
      if ByFile(a) && saved.Some? { after := after[path := saved.value]; }
      values := values + [p.value];
    }
    if hasReturn {
      values := values + [PathOf(ReturnFile(dir, mOut, returnUid))];
      names := names + [ReturnName(mOut)];
      types, contents := types + [FILE], contents + [""];
    }
    forall i | 0 <= i < n && ByFile(slots[i].actual)
      ensures save(slots[i].actual.v).Some?
      ensures values[i] == PathOf(ArgumentFile(dir, m, slots[i].name, i + 1, uids[i]))
    {
      OwnFileIsSent(dir, m, slots, uids, save, i, values[i]);
    }
    r := Some(Task(values, names, types, contents, directions, streams, prefixes, weights, renames,
                   if hasReturn then 1 else 0));
  }

  // ---------- Symbols are dropped from the values only ----------

  function WithoutSymbols(ps: seq<Processed>): (r: seq<Processed>)
    ensures |r| <= |ps| && forall i | 0 <= i < |r| :: !r[i].IsSymbol()
  {
    if ps == [] then [] else (if ps[0].IsSymbol() then [] else [ps[0]]) + WithoutSymbols(ps[1..])
  }

  lemma {:induction false} WithoutSymbolsSnoc(ps: seq<Processed>, p: Processed)
    ensures WithoutSymbols(ps + [p]) == WithoutSymbols(ps) + (if p.IsSymbol() then [] else [p])
  {
    if ps == [] {
      assert ps + [p] == [p] && [p][1..] == [];
    } else {
      assert (ps + [p])[0] == ps[0] && (ps + [p])[1..] == ps[1..] + [p];
      WithoutSymbolsSnoc(ps[1..], p);
    }
  }

  method CleanValues(ps: seq<Processed>) returns (clean: seq<Processed>)
    ensures clean == WithoutSymbols(ps)
  {
    clean := [];
    for i := 0 to |ps|
      invariant clean == WithoutSymbols(ps[..i])
    {
      WithoutSymbolsSnoc(ps[..i], ps[i]);
      assert ps[..i + 1] == ps[..i] + [ps[i]];
      if !ps[i].IsSymbol() { clean := clean + [ps[i]]; }
    }
    assert ps[..|ps|] == ps;
  }

  /** Every value that is left is still at the index of its name, type and other fields. */
  predicate Aligned(ps: seq<Processed>) {
    WithoutSymbols(ps) <= ps
  }

  predicate SymbolsLast(ps: seq<Processed>) {
    forall i, j | 0 <= i < j < |ps| :: ps[i].IsSymbol() ==> ps[j].IsSymbol()
  }

  lemma {:induction false} OnlySymbols(ps: seq<Processed>)
    ensures WithoutSymbols(ps) == [] <==> forall i | 0 <= i < |ps| :: ps[i].IsSymbol()
  {
    if ps != [] {
      OnlySymbols(ps[1..]);
      if forall i | 0 <= i < |ps| :: ps[i].IsSymbol() {
        forall i | 0 <= i < |ps[1..]| ensures ps[1..][i].IsSymbol() { assert ps[i + 1].IsSymbol(); }
      }
    }
  }

  /** The vectors stay aligned exactly when no symbol stands before another value. */
  lemma {:induction false} AlignedIffSymbolsLast(ps: seq<Processed>)
    ensures Aligned(ps) <==> SymbolsLast(ps)
  {
    if ps != [] {
      var rest := ps[1..];
      AlignedIffSymbolsLast(rest);
      OnlySymbols(rest);
      var w := WithoutSymbols(rest);
      if ps[0].IsSymbol() {
        if w != [] { assert !w[0].IsSymbol(); }
        assert forall j | 0 <= j < |rest| :: rest[j] == ps[j + 1];
        assert Aligned(ps) <==> w == [];
      } else {
        assert WithoutSymbols(ps) == [ps[0]] + w;
        assert [ps[0]] + w <= ps <==> w <= rest by { SamePrefix(ps[0], w, rest); assert ps == [ps[0]] + rest; }
        assert SymbolsLast(ps) <==> SymbolsLast(rest) by {
          assert forall j | 0 <= j < |rest| :: rest[j] == ps[j + 1];
          if SymbolsLast(rest) {
            forall i, j | 0 <= i < j < |ps| && ps[i].IsSymbol() ensures ps[j].IsSymbol() {
              assert rest[i - 1].IsSymbol() ==> rest[j - 1].IsSymbol();
            }
          }
          if SymbolsLast(ps) {
            forall i, j | 0 <= i < j < |rest| && rest[i].IsSymbol() ensures rest[j].IsSymbol() {
              assert ps[i + 1].IsSymbol() ==> ps[j + 1].IsSymbol();
            }
          }
        }
      }
    }
  }

  lemma SamePrefix<T>(x: T, a: seq<T>, b: seq<T>)
    ensures [x] + a <= [x] + b <==> a <= b
  {
    if [x] + a <= [x] + b {
      assert a == ([x] + a)[1..] && b == ([x] + b)[1..];
      assert forall i | 0 <= i < |a| :: a[i] == ([x] + a)[i + 1] == ([x] + b)[i + 1] == b[i];
    }
  }

  /** A task with a return value is aligned exactly when no argument is a symbol. */
  lemma AlignedWithReturnIff(args: seq<Processed>, path: string)
    ensures Aligned(args + [PathOf(path)]) <==> forall i | 0 <= i < |args| :: !args[i].IsSymbol()
  {
    var ps := args + [PathOf(path)];
    AlignedIffSymbolsLast(ps);
    assert forall i | 0 <= i < |args| :: ps[i] == args[i];
    assert !ps[|args|].IsSymbol();
    if SymbolsLast(ps) {
      forall i | 0 <= i < |args| ensures !args[i].IsSymbol() {
        assert !ps[i].IsSymbol();
      }
    }
  }

  lemma {:induction false} NothingToClean(ps: seq<Processed>)
    requires forall i | 0 <= i < |ps| :: !ps[i].IsSymbol()
    ensures WithoutSymbols(ps) == ps
  {
    if ps != [] { NothingToClean(ps[1..]); }
  }

  /** A first formal without value shifts everything behind it: the second value is sent under
      the first name. */
  lemma SymbolFirstMisaligns(v: SEXP)
    ensures var ps := [AsIs(Symbol(None)), AsIs(Given(v, []))];
            !Aligned(ps) && WithoutSymbols(ps)[0] == ps[1]
  {
    var ps := [AsIs(Symbol(None)), AsIs(Given(v, []))];
    AlignedIffSymbolsLast(ps);
    assert ps[0].IsSymbol() && !ps[1].IsSymbol();
    assert ps[1..] == [ps[1]] && [ps[1]][1..] == [];
  }
}
