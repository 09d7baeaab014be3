/** Matching the values of a call to the formals of the called function, on the master. */
module Matching {
  import opened Options
  import opened RValues
  import opened Texts

  /** An argument as the master holds it: a value with its class attribute ([] if it has none), or
      the symbol that stands for a formal without default. Evaluating the symbol gives what R finds
      under it, if anything. */
  datatype Actual = Given(v: SEXP, classAttr: seq<string>) | Symbol(found: Option<(SEXP, seq<string>)>)
  {
    predicate IsNull() {
      Given? && v.Null?
    }
  }

  /** An element of a list with names; an element without a name has the name "". */
  datatype Slot = Slot(name: string, actual: Actual)

  const DOTS := "..."

  predicate DistinctNames(formals: seq<Slot>) {
    && (forall i | 0 <= i < |formals| :: formals[i].name != "")
    && (forall i, j | 0 <= i < j < |formals| :: formals[i].name != formals[j].name)
  }

  predicate HasName(slots: seq<Slot>, name: string) {
    exists i | 0 <= i < |slots| :: slots[i].name == name
  }

  function FirstNamed(slots: seq<Slot>, name: string): (a: Actual)
    requires HasName(slots, name)
    ensures exists i | 0 <= i < |slots| ::
              slots[i] == Slot(name, a) && forall j | 0 <= j < i :: slots[j].name != name
  {
    if slots[0].name == name then
      assert slots[0] == Slot(name, slots[0].actual);
      slots[0].actual
    else
      var rest := slots[1..];
      assert HasName(rest, name) by {
        var i :| 0 <= i < |slots| && slots[i].name == name;
        assert rest[i - 1].name == name;
      }
      var a := FirstNamed(rest, name);
      assert exists i | 0 <= i < |slots| ::
          slots[i] == Slot(name, a) && forall j | 0 <= j < i :: slots[j].name != name by {
        var i :| 0 <= i < |rest| && rest[i] == Slot(name, a) && forall j | 0 <= j < i :: rest[j].name != name;
        assert slots[i + 1] == Slot(name, a);
        forall j | 0 <= j < i + 1 ensures slots[j].name != name {
          if j > 0 { assert rest[j - 1].name != name; }
        }
      }
      a
  }

  function Unnamed(values: seq<Slot>): seq<Actual> {
    if values == [] then []
    else (if values[0].name == "" then [values[0].actual] else []) + Unnamed(values[1..])
  }

  // ---------- The rule: exact names first, then positions ----------

  /** How many formals before the i-th are not named in the call. */
  function Rank(formals: seq<Slot>, values: seq<Slot>, i: nat): nat
    requires i <= |formals|
  {
    if i == 0 then 0
    else Rank(formals, values, i - 1) + (if HasName(values, formals[i - 1].name) then 0 else 1)
  }

  predicate Supplied(formals: seq<Slot>, values: seq<Slot>, i: nat)
    requires i < |formals|
  {
    HasName(values, formals[i].name) || Rank(formals, values, i) < |Unnamed(values)|
  }

  /** The value named after the formal; else the unnamed value whose rank is the formal's rank
      among the formals not named; else the formal's default. */
  function Chosen(formals: seq<Slot>, values: seq<Slot>, i: nat): Actual
    requires i < |formals|
  {
    if HasName(values, formals[i].name) then FirstNamed(values, formals[i].name)
    else if Rank(formals, values, i) < |Unnamed(values)| then Unnamed(values)[Rank(formals, values, i)]
    else formals[i].actual
  }

  function Matched(formals: seq<Slot>, values: seq<Slot>): seq<Slot> {
    seq(|formals|, i requires 0 <= i < |formals| => Slot(formals[i].name, Chosen(formals, values, i)))
  }

  /** No formal among the first n is supplied with NULL. */
  predicate NoNull(formals: seq<Slot>, values: seq<Slot>, n: nat)
    requires n <= |formals|
  {
    forall i | 0 <= i < n :: Supplied(formals, values, i) ==> !Chosen(formals, values, i).IsNull()
  }

  lemma {:induction false} RankBefore(formals: seq<Slot>, values: seq<Slot>, i: nat, j: nat)
    requires i < j <= |formals|
    ensures Rank(formals, values, i) <= Rank(formals, values, j)
    ensures !HasName(values, formals[i].name) ==> Rank(formals, values, i) < Rank(formals, values, j)
    decreases j
  {
    if i < j - 1 { RankBefore(formals, values, i, j - 1); }
  }

  /** No value of the call goes to two formals. */
  lemma DistinctFormalsDistinctValues(formals: seq<Slot>, values: seq<Slot>, i: nat, j: nat)
    requires DistinctNames(formals) && i < j < |formals|
    requires Supplied(formals, values, i) && Supplied(formals, values, j)
    ensures formals[i].name != formals[j].name
    ensures !HasName(values, formals[i].name) && !HasName(values, formals[j].name) ==>
              Rank(formals, values, i) < Rank(formals, values, j) < |Unnamed(values)|
  {
    RankBefore(formals, values, i, j);
  }

  lemma {:induction false} UnnamedOfAll(values: seq<Slot>)
    requires forall i | 0 <= i < |values| :: values[i].name == ""
    ensures |Unnamed(values)| == |values|
    ensures forall i | 0 <= i < |values| :: Unnamed(values)[i] == values[i].actual
  {
    if values != [] { UnnamedOfAll(values[1..]); }
  }

  lemma {:induction false} RankOfAll(formals: seq<Slot>, values: seq<Slot>, i: nat)
    requires i <= |formals| && DistinctNames(formals)
    requires forall i | 0 <= i < |values| :: values[i].name == ""
    ensures Rank(formals, values, i) == i
  {
    if i > 0 { RankOfAll(formals, values, i - 1); }
  }

  /** Without names in the call the rule is matching by position. */
  lemma PositionalWithoutNames(formals: seq<Slot>, values: seq<Slot>, i: nat)
    requires i < |formals| && DistinctNames(formals)
    requires forall i | 0 <= i < |values| :: values[i].name == ""
    ensures Supplied(formals, values, i) <==> i < |values|
    ensures Chosen(formals, values, i) == if i < |values| then values[i].actual else formals[i].actual
  {
    UnnamedOfAll(values);
    RankOfAll(formals, values, i);
  }

  // ---------- What the loops do ----------

  /** `arguments[[i + 1]] <- a`: NULL deletes the element, and an index past the end extends the
      list with nameless elements. */
  function ListAssign(args: seq<Slot>, i: nat, a: Actual): seq<Slot> {
    if a.IsNull() then (if i < |args| then args[..i] + args[i + 1..] else args)
    else if i < |args| then args[i := Slot(args[i].name, a)]
    else args + seq(i - |args|, _ => Slot("", Given(Null, []))) + [Slot("", a)]
  }

  lemma ListAssignAddsNoName(args: seq<Slot>, i: nat, a: Actual, name: string)
    requires name != "" && !HasName(args, name)
    ensures !HasName(ListAssign(args, i, a), name)
  {
    var r := ListAssign(args, i, a);
    forall j | 0 <= j < |r| ensures r[j].name != name {
      if j < |args| { assert args[j].name != name; }
      if j + 1 < |args| { assert args[j + 1].name != name; }
    }
  }

  /** The state after i formals: as the rule says, or some formal is gone for good. */
  ghost predicate Progress(formals: seq<Slot>, values: seq<Slot>, args: seq<Slot>, i: nat)
    requires i <= |formals|
  {
    if NoNull(formals, values, i) then args == Matched(formals, values)[..i] + formals[i..]
    else exists d | 0 <= d < |formals| :: !HasName(args, formals[d].name)
  }

  /** One turn of either loop. */
  function Turn(formals: seq<Slot>, values: seq<Slot>, args: seq<Slot>, i: nat): seq<Slot>
    requires i < |formals|
  {
    if Supplied(formals, values, i) then ListAssign(args, i, Chosen(formals, values, i)) else args
  }

  /** The list after i turns. */
  function Looped(formals: seq<Slot>, values: seq<Slot>, i: nat): seq<Slot>
    requires i <= |formals|
  {
    if i == 0 then formals else Turn(formals, values, Looped(formals, values, i - 1), i - 1)
  }

  lemma TurnProgresses(formals: seq<Slot>, values: seq<Slot>, args: seq<Slot>, i: nat)
    requires i < |formals| && DistinctNames(formals) && Progress(formals, values, args, i)
    ensures Progress(formals, values, Turn(formals, values, args, i), i + 1)
  {
    hide Chosen, Supplied;
    var next := Turn(formals, values, args, i);
    if !NoNull(formals, values, i) {
      var d :| 0 <= d < |formals| && !HasName(args, formals[d].name);
      if Supplied(formals, values, i) {
        ListAssignAddsNoName(args, i, Chosen(formals, values, i), formals[d].name);
      }
    } else if NoNull(formals, values, i + 1) {
      var m := Matched(formals, values);
      assert next == m[..i + 1] + formals[i + 1..] by {
        assert args[i] == formals[i];
        if !Supplied(formals, values, i) { DefaultWhenNotSupplied(formals, values, i); }
      }
    } else {
      assert next == args[..i] + args[i + 1..];
      forall j | 0 <= j < |next| ensures next[j].name != formals[i].name {
        var k := if j < i then j else j + 1;
        assert next[j] == args[k] && args[k].name == formals[k].name;
      }
    }
  }

  lemma DefaultWhenNotSupplied(formals: seq<Slot>, values: seq<Slot>, i: nat)
    requires i < |formals| && !Supplied(formals, values, i)
    ensures Chosen(formals, values, i) == formals[i].actual
  {
  }

  lemma ProgressDecides(formals: seq<Slot>, values: seq<Slot>, args: seq<Slot>)
    requires Progress(formals, values, args, |formals|)
    ensures args == Matched(formals, values) <==> NoNull(formals, values, |formals|)
  {
    var m := Matched(formals, values);
    assert m[..|formals|] + formals[|formals|..] == m;
    if !NoNull(formals, values, |formals|) {
      var d :| 0 <= d < |formals| && !HasName(args, formals[d].name);
      assert m[d].name == formals[d].name;
    }
  }

  lemma {:induction false} UnnamedSnoc(values: seq<Slot>, v: Slot)
    ensures Unnamed(values + [v]) == Unnamed(values) + (if v.name == "" then [v.actual] else [])
  {
    if values == [] {
      assert values + [v] == [v] && [v][1..] == [];
    } else {
      assert (values + [v])[0] == values[0] && (values + [v])[1..] == values[1..] + [v];
      UnnamedSnoc(values[1..], v);
    }
  }

  /** The two branches over formals without dots: one turn for each formal. The result is what the
      rule says exactly when no formal is supplied with NULL. */
  method MatchFormals(formals: seq<Slot>, values: seq<Slot>) returns (args: seq<Slot>)
    requires DistinctNames(formals)
    ensures args == Looped(formals, values, |formals|)
    ensures args == Matched(formals, values) <==> NoNull(formals, values, |formals|)
  {
    hide Progress, Chosen, Supplied, ListAssign, Unnamed, Rank, NoNull, Looped, Turn;
    args := formals;
    StartsProgress(formals, values);
    if forall v <- values :: v.name == "" {
      for i := 0 to |formals|
        invariant Progress(formals, values, args, i) && args == Looped(formals, values, i)
      {
        PositionalWithoutNames(formals, values, i);
        TurnProgresses(formals, values, args, i);
        TurnStep(formals, values, args, i);
        if i < |values| { args := ListAssign(args, i, values[i].actual); }
      }
    } else {
      var unnamed: seq<Actual> := [];
      UnnamedOfNone();
      for v := 0 to |values|
        invariant unnamed == Unnamed(values[..v])
      {
        UnnamedSnoc(values[..v], values[v]);
        assert values[..v + 1] == values[..v] + [values[v]];
        if values[v].name == "" { unnamed := unnamed + [values[v].actual]; }
      }
      assert values[..|values|] == values;
      var k := 0;
      RankAtStart(formals, values);
      for i := 0 to |formals|
        invariant k == if Rank(formals, values, i) < |unnamed| then Rank(formals, values, i) else |unnamed|
        invariant Progress(formals, values, args, i) && args == Looped(formals, values, i)
      {
        TurnCases(formals, values, i);
        TurnProgresses(formals, values, args, i);
        TurnStep(formals, values, args, i);
        if HasName(values, formals[i].name) {
          args := ListAssign(args, i, FirstNamed(values, formals[i].name));
        } else if |unnamed| > 0 && k < |unnamed| {
          args := ListAssign(args, i, unnamed[k]);
          k := k + 1;
        }
      }
    }
    ProgressDecides(formals, values, args);
  }

  lemma StartsProgress(formals: seq<Slot>, values: seq<Slot>)
    ensures Progress(formals, values, formals, 0) && Looped(formals, values, 0) == formals
  {
  }

  lemma TurnStep(formals: seq<Slot>, values: seq<Slot>, args: seq<Slot>, i: nat)
    requires i < |formals| && args == Looped(formals, values, i)
    ensures Looped(formals, values, i + 1) == Turn(formals, values, args, i)
    ensures Turn(formals, values, args, i) ==
            if Supplied(formals, values, i) then ListAssign(args, i, Chosen(formals, values, i)) else args
  {
    hide Supplied, Chosen, ListAssign;
  }

  lemma UnnamedOfNone()
    ensures Unnamed([]) == []
  {
  }

  lemma RankAtStart(formals: seq<Slot>, values: seq<Slot>)
    ensures Rank(formals, values, 0) == 0
  {
  }

  lemma TurnCases(formals: seq<Slot>, values: seq<Slot>, i: nat)
    requires i < |formals|
    ensures Rank(formals, values, i + 1) ==
            Rank(formals, values, i) + (if HasName(values, formals[i].name) then 0 else 1)
    ensures HasName(values, formals[i].name) ==>
              Supplied(formals, values, i) && Chosen(formals, values, i) == FirstNamed(values, formals[i].name)
    ensures !HasName(values, formals[i].name) ==>
              && (Supplied(formals, values, i) <==> Rank(formals, values, i) < |Unnamed(values)|)
              && (Supplied(formals, values, i) ==>
                    Chosen(formals, values, i) == Unnamed(values)[Rank(formals, values, i)])
  {
  }

  /** A NULL in the call makes the matching lose a formal. */
  lemma NullLosesAFormal()
    ensures var formals := [Slot("x", Symbol(None)), Slot("y", Symbol(None))];
            var values := [Slot("", Given(Null, []))];
            DistinctNames(formals) && !NoNull(formals, values, 2)
  {
    var formals := [Slot("x", Symbol(None)), Slot("y", Symbol(None))];
    var values := [Slot("", Given(Null, []))];
    PositionalWithoutNames(formals, values, 0);
    assert Supplied(formals, values, 0) && Chosen(formals, values, 0).IsNull();
  }

  /** With two formals, a NULL for the first takes it away; the second value then finds one element
      only and is appended without a name, and the second formal keeps its default. */
  lemma NullMisplacesTheNext(x: Slot, y: Slot, second: Actual)
    requires x.name != "" && y.name != "" && x.name != y.name && !second.IsNull()
    ensures Looped([x, y], [Slot("", Given(Null, [])), Slot("", second)], 2) == [y, Slot("", second)]
  {
    var formals, values := [x, y], [Slot("", Given(Null, [])), Slot("", second)];
    PositionalWithoutNames(formals, values, 0);
    PositionalWithoutNames(formals, values, 1);
    hide Chosen, Supplied;
    assert Looped(formals, values, 1) == [y] by {
      assert formals[..0] + formals[1..] == [y];
    }
    assert Looped(formals, values, 2) == ListAssign([y], 1, second);
  }

  // ---------- The three cases ----------

  function VariableName(f: string, i: nat): string {
    f + "___" + Decimal(i + 1)
  }

  /** Different positions have different names. */
  lemma VariableNamesDiffer(f: string, i: nat, j: nat)
    requires VariableName(f, i) == VariableName(f, j)
    ensures i == j
  {
    var p, q := VariableName(f, i), VariableName(f, j);
    assert p[|f| + 3..] == Decimal(i + 1) && q[|f| + 3..] == Decimal(j + 1);
    DecimalRoundTrip(i + 1);
    DecimalRoundTrip(j + 1);
  }

  lemma VariableNameTexts()
    ensures VariableName("f", 0) == "f___1" && VariableName("f", 9) == "f___10"
  {
    assert Decimal(1) == "1" && Decimal(10) == "10";
  }

  method BuildVariableArgumentNames(f: string, count: nat) returns (names: seq<string>)
    ensures |names| == count && forall i | 0 <= i < count :: names[i] == VariableName(f, i)
  {
    names := [];
    var prefix := f + "___";
    for i := 1 to count + 1
      invariant |names| == i - 1 && forall j | 0 <= j < i - 1 :: names[j] == VariableName(f, j)
    {
      names := names + [prefix + Decimal(i)];
    }
  }

  predicate OnlyDots(formals: seq<Slot>) {
    |formals| == 1 && formals[0].name == DOTS
  }

  /** The arguments of the call: dots alone take every value in its order, under a name made from
      its position. */
  function CallSlots(f: string, formals: seq<Slot>, values: seq<Slot>): seq<Slot> {
    if OnlyDots(formals) then
      seq(|values|, i requires 0 <= i < |values| => Slot(VariableName(f, i), values[i].actual))
    else Matched(formals, values)
  }

  /** None is the error for dots beside other formals. */
  method MatchArguments(f: string, formals: seq<Slot>, values: seq<Slot>) returns (r: Option<seq<Slot>>)
    requires DistinctNames(formals)
    ensures r.None? <==> |formals| > 1 && HasName(formals, DOTS)
    ensures OnlyDots(formals) ==> r == Some(CallSlots(f, formals, values))
    ensures !HasName(formals, DOTS) ==> r == Some(Looped(formals, values, |formals|))
    ensures !HasName(formals, DOTS) ==>
              (r == Some(CallSlots(f, formals, values)) <==> NoNull(formals, values, |formals|))
  {
    hide NoNull, Matched, VariableName, Looped;
    if |formals| == 1 && formals[0].name == DOTS {
      assert HasName(formals, DOTS);
      var names := BuildVariableArgumentNames(f, |values|);
      var slots := seq(|values|, i requires 0 <= i < |values| => Slot(names[i], values[i].actual));
      assert slots == CallSlots(f, formals, values);
      return Some(slots);
    }
    if |formals| > 1 && HasName(formals, DOTS) { return None; }
    var args := MatchFormals(formals, values);
    r := Some(args);
  }
}
