/** The names of serialized files: how a serialization method is put into a name and found again,
    and which codec each side picks for it. */
module PathNames {
  import opened Options
  import opened Texts

  predicate Separator(c: char) {
    c == '/' || c == '\\'
  }

  predicate SeparatorFree(s: string) {
    '/' !in s && '\\' !in s
  }

  /** What follows the last separator, or everything if there is none. */
  function Basename(p: string): (r: string)
    ensures SeparatorFree(r) && |r| <= |p| && r == p[|p| - |r|..]
    ensures |r| < |p| ==> Separator(p[|p| - |r| - 1])
  {
    if SeparatorFree(p) then p
    else if Separator(p[0]) && SeparatorFree(p[1..]) then p[1..]
    else Basename(p[1..])
  }

  function ExtractMethod(path: string): (m: string)
    ensures '-' !in m && SeparatorFree(m)
  {
    var name := Basename(path);
    if '-' in name then BeforeDash(name) else ""
  }

  function WithSlash(dir: string): string {
    if dir != "" && dir[|dir| - 1] != '/' then dir + "/" else dir
  }

  function Effective(serMethod: string): string {
    if serMethod == "" then "cpp" else serMethod
  }

  function ArgumentFile(dir: string, serMethod: string, name: string, index: nat, uid: string): string {
    WithSlash(dir) + Effective(serMethod) + "-" + name + "_arg[" + Decimal(index) + "]_" + uid
  }

  /** The name that the task path gives to the file of a return value. */
  function ReturnFile(dir: string, serMethod: string, uid: string): string {
    WithSlash(dir) + serMethod + "-ReturnValue_" + uid
  }

  /** The library's name for it, which has a default for an empty method. */
  function LibraryReturnFile(dir: string, serMethod: string, uid: string): string {
    ReturnFile(dir, Effective(serMethod), uid)
  }

  /** The two methods of a task, as `rcompss_execute_task` fills in what is empty or missing. Of an
      empty vector it fills in the first only: there is no second, and just a return value asks for
      one. */
  function FilledMethods(given: seq<string>, fallback: string): (r: (string, Option<string>))
    requires fallback != ""
    ensures r.0 != "" && r.1 != Some("") && (r.1 == None <==> given == [])
    ensures given == [] || given[0] == "" ==> r.0 == fallback
    ensures given != [] && given[0] != "" ==> r.0 == given[0]
    ensures |given| >= 2 ==> r.1 == Some(if given[1] == "" then fallback else given[1])
    ensures |given| == 1 ==> r.1 == Some(r.0)
  {
    if given == [] then (fallback, None) else
    var filled := if given[0] == "" then fallback else given[0];
    (filled, Some(if |given| < 2 then filled else if given[1] == "" then fallback else given[1]))
  }

  function ReturnName(serMethod: string): string {
    serMethod + RETURN_SUFFIX
  }

  // ---------- Reading the method back ----------

  lemma {:induction false} BasenameOf(front: string, name: string)
    requires SeparatorFree(name) && (front == "" || Separator(front[|front| - 1]))
    ensures Basename(front + name) == name
  {
    var p := front + name;
    if front == "" {
      assert p == name;
    } else {
      assert p[|front| - 1] == front[|front| - 1];
      var rest := front[1..];
      assert p[1..] == rest + name;
      if rest == "" {
        assert p[1..] == name;
      } else {
        assert rest[|rest| - 1] == front[|front| - 1] && p[1..][|rest| - 1] == rest[|rest| - 1];
        BasenameOf(rest, name);
      }
    }
  }

  /** A method in front of a dash is read back exactly when it has no dash and no separator. */
  lemma MethodOfName(dir: string, m: string, rest: string)
    requires SeparatorFree(rest)
    ensures ExtractMethod(WithSlash(dir) + (m + "-" + rest)) == m <==> '-' !in m && SeparatorFree(m)
  {
    if '-' !in m && SeparatorFree(m) {
      var name := m + "-" + rest;
      assert name[|m|] == '-';
      BasenameOf(WithSlash(dir), name);
      BeforeDashOf(m, rest);
    }
  }

  lemma ArgumentMethod(dir: string, m: string, name: string, index: nat, uid: string)
    requires SeparatorFree(name) && SeparatorFree(uid)
    ensures ExtractMethod(ArgumentFile(dir, m, name, index, uid)) == Effective(m) <==>
            '-' !in Effective(m) && SeparatorFree(Effective(m))
  {
    hide ExtractMethod, WithSlash, Effective, Decimal;
    var rest := name + "_arg[" + Decimal(index) + "]_" + uid;
    assert SeparatorFree(rest);
    hide SeparatorFree;
    MethodOfName(dir, Effective(m), rest);
    assert ArgumentFile(dir, m, name, index, uid) == WithSlash(dir) + (Effective(m) + "-" + rest);
  }

  lemma ReturnMethod(dir: string, m: string, uid: string)
    requires SeparatorFree(uid)
    ensures ExtractMethod(ReturnFile(dir, m, uid)) == m <==> '-' !in m && SeparatorFree(m)
  {
    hide ExtractMethod, WithSlash;
    var rest := "ReturnValue_" + uid;
    assert SeparatorFree(rest);
    hide SeparatorFree;
    MethodOfName(dir, m, rest);
    assert ReturnFile(dir, m, uid) == WithSlash(dir) + (m + "-" + rest);
  }

  /** The two ways to name that file agree exactly on a method that is not empty. */
  lemma SameReturnFileIff(dir: string, m: string, uid: string)
    ensures LibraryReturnFile(dir, m, uid) == ReturnFile(dir, m, uid) <==> m != ""
  {
    assert |LibraryReturnFile(dir, m, uid)| == |WithSlash(dir)| + |Effective(m)| + |"-ReturnValue_"| + |uid|;
  }

  lemma ReturnNameMethod(m: string)
    ensures BeforeDash(ReturnName(m)) == m <==> '-' !in m
  {
    assert ReturnName(m) == m + "-" + "RETURN_VALUE";
    if '-' !in m { BeforeDashOf(m, "RETURN_VALUE"); }
  }

  lemma DistinctUidsDistinctFiles(dir: string, m: string, name: string, i: nat, uid: string,
                                  dir2: string, m2: string, name2: string, i2: nat, uid2: string)
    requires |uid| == |uid2| && ArgumentFile(dir, m, name, i, uid) == ArgumentFile(dir2, m2, name2, i2, uid2)
    ensures uid == uid2
  {
    var p, q := ArgumentFile(dir, m, name, i, uid), ArgumentFile(dir2, m2, name2, i2, uid2);
    assert uid == p[|p| - |uid|..];
    assert uid2 == q[|q| - |uid2|..];
  }

  lemma DistinctUidsDistinctReturns(dir: string, m: string, uid: string, dir2: string, m2: string, uid2: string)
    requires |uid| == |uid2| && ReturnFile(dir, m, uid) == ReturnFile(dir2, m2, uid2)
    ensures uid == uid2
  {
    var p, q := ReturnFile(dir, m, uid), ReturnFile(dir2, m2, uid2);
    assert uid == p[|p| - |uid|..];
    assert uid2 == q[|q| - |uid2|..];
  }

  /** No argument's file is a return value's. */
  lemma ArgumentIsNoReturn(dir: string, m: string, name: string, i: nat, uid: string, m2: string, uid2: string)
    requires |uid| == |uid2|
    ensures ArgumentFile(dir, m, name, i, uid) != ReturnFile(dir, m2, uid2)
  {
    var p, q := ArgumentFile(dir, m, name, i, uid), ReturnFile(dir, m2, uid2);
    assert p[|p| - |uid| - 2] == ']';
    assert q[|q| - |uid2| - 2] == 'e';
  }

  lemma Folders()
    ensures WithSlash("/w") == WithSlash("/w/") == "/w/" && WithSlash("") == ""
    ensures Effective("") == "cpp" && Effective("qs") == "qs" && Decimal(2) == "2"
  {
  }

  /** The names letter by letter. */
  lemma ArgumentFileNames()
    ensures ArgumentFile("/w", "qs", "x", 2, "u") == ArgumentFile("/w/", "qs", "x", 2, "u") == "/w/qs-x_arg[2]_u"
    ensures ArgumentFile("", "", "x", 2, "u") == "cpp-x_arg[2]_u"
  {
    hide WithSlash, Effective, Decimal;
    Folders();
    assert "/w/" + "qs" + "-" + "x" + "_arg[" + "2" + "]_" + "u" == "/w/qs-x_arg[2]_u";
  }

  lemma ReturnFileNames()
    ensures ReturnFile("/w", "qs", "u") == ReturnFile("/w/", "qs", "u") == "/w/qs-ReturnValue_u"
    ensures ReturnName("qs") == "qs-RETURN_VALUE"
  {
    hide WithSlash;
    Folders();
  }

  // ---------- Which codec each side picks ----------

  datatype Kind = Cpp | Qs | Rmvl

  function LowerChar(c: char): char {
    if 'A' <= c <= 'Z' then c + 32 as char else c
  }

  function Lower(s: string): string {
    seq(|s|, i requires 0 <= i < |s| => LowerChar(s[i]))
  }

  /** `rcompss_serialize`: any letter case; anything else is an error. */
  function WriterKind(m: string): Option<Kind> {
    var low := Lower(m);
    if low == "cpp" then Some(Cpp) else if low == "qs" then Some(Qs) else if low == "rmvl" then Some(Rmvl) else None
  }

  /** `rcompss_unserialize`: exact spelling; anything else falls back to the C++ reader. */
  function ReaderKind(m: string): Kind {
    if m == "cpp" then Cpp else if m == "qs" then Qs else if m == "RMVL" then Rmvl else Cpp
  }

  /** The writer takes three spellings in any case, the reader one of each and the first as default. */
  lemma Spellings(m: string)
    ensures WriterKind(m) == Some(Cpp) <==> |m| == 3 && m[0] in "cC" && m[1] in "pP" && m[2] in "pP"
    ensures WriterKind(m) == Some(Qs) <==> |m| == 2 && m[0] in "qQ" && m[1] in "sS"
    ensures WriterKind(m) == Some(Rmvl) <==> |m| == 4 && m[0] in "rR" && m[1] in "mM" && m[2] in "vV" && m[3] in "lL"
    ensures (ReaderKind(m) == Qs <==> m == "qs") && (ReaderKind(m) == Rmvl <==> m == "RMVL")
  {
    var low := Lower(m);
    assert |low| == |m| && forall i | 0 <= i < |m| :: low[i] == LowerChar(m[i]);
    assert low == "cpp" <==> |low| == 3 && low[0] == 'c' && low[1] == 'p' && low[2] == 'p';
    assert low == "qs" <==> |low| == 2 && low[0] == 'q' && low[1] == 's';
    assert low == "rmvl" <==> |low| == 4 && low[0] == 'r' && low[1] == 'm' && low[2] == 'v' && low[3] == 'l';
  }

  predicate Agreed(m: string) {
    m == "qs" || m == "RMVL" || Lower(m) == "cpp"
  }

  lemma CodecsAgreeIff(m: string)
    requires WriterKind(m).Some?
    ensures ReaderKind(m) == WriterKind(m).value <==> Agreed(m)
  {
    if m == "cpp" || m == "qs" || m == "RMVL" {
      assert Lower("cpp") == "cpp" && Lower("qs") == "qs" && Lower("RMVL") == "rmvl";
    }
  }

  lemma ValidMethodIsPlain(m: string)
    requires WriterKind(m).Some?
    ensures m != "" && '-' !in m && SeparatorFree(m)
  {
    forall i | 0 <= i < |m| ensures m[i] != '-' && !Separator(m[i]) {
      assert Lower(m)[i] == LowerChar(m[i]);
    }
  }

  /** For every method the writer accepts, the file of an argument or of a return value is read by
      the codec that wrote it exactly for "qs", "RMVL" and any casing of "cpp". */
  lemma FileIsReadAsWritten(dir: string, m: string, name: string, index: nat, uid: string)
    requires WriterKind(m).Some? && SeparatorFree(name) && SeparatorFree(uid)
    ensures ReaderKind(ExtractMethod(ArgumentFile(dir, m, name, index, uid))) == WriterKind(m).value <==> Agreed(m)
    ensures BeforeDash(ReturnName(m)) == m
    ensures ReaderKind(ExtractMethod(ReturnFile(dir, m, uid))) == WriterKind(BeforeDash(ReturnName(m))).value <==>
            Agreed(m)
  {
    hide ArgumentFile, ReturnFile, ReturnName, ExtractMethod, Lower;
    ValidMethodIsPlain(m);
    ArgumentMethod(dir, m, name, index, uid);
    ReturnMethod(dir, m, uid);
    ReturnNameMethod(m);
    CodecsAgreeIff(m);
  }

  /** The lower-case spelling is written by RMVL and read by the C++ reader. */
  lemma LowerCaseRmvlDisagrees()
    ensures WriterKind("rmvl") == Some(Rmvl) && ReaderKind("rmvl") == Cpp
  {
    assert Lower("rmvl") == "rmvl";
  }
}
