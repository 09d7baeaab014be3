/** `process_task`: each parameter becomes nine pointers in one flat array. Numbers are pointed to
    where they lie; strings are copied to tables first, and the values that are strings share one
    table, where they are found by their rank among the string parameters. */
module Parameters {
  import opened Bytes
  import opened Decorator
  import opened Matching
  import opened Options
  import opened RValues

  datatype Field = IntField(i: int) | RealField(d: Double) | TextField(s: string)

  datatype Table = Prefixes | Names | Contents | Weights
  datatype Column = Types | Directions | Streams | Renames

  /** A cell of its own, a row of a table or column, or a row of the table of string values. */
  datatype Pointer = NoPointer | Cell(f: Field) | Text(t: Table, i: nat) | Number(c: Column, i: nat) | ValueText(i: nat)

  const FIELDS := 9

  predicate ByText(code: int) {
    code == 8 || code == FILE
  }

  /** The conversions of a list element to a C++ value; None is an exception. */
  function AsInt(p: Processed): Option<int> {
    if p.AsIs? && p.a.Given? && p.a.v.Obj? then
      match p.a.v.data
      case Integers(xs) => if |xs| == 1 then Some(xs[0]) else None
      case Logicals(xs) => if |xs| == 1 then Some(xs[0]) else None
      case _ => None
    else None
  }

  function AsDouble(p: Processed): Option<Double> {
    if p.AsIs? && p.a.Given? && p.a.v.Obj? && p.a.v.data.Reals? && |p.a.v.data.reals| == 1
    then Some(p.a.v.data.reals[0]) else None
  }

  function AsText(p: Processed): Option<string> {
    if p.PathOf? then Some(p.path)
    else if p.a.Given? && p.a.v.Obj? && p.a.v.data.Strings? && |p.a.v.data.strs| == 1
    then Some(TextOf(p.a.v.data.strs[0])) else None
  }

  function ValueField(p: Processed, code: int): Option<Field> {
    if ByText(code) then (match AsText(p) case None => None case Some(s) => Some(TextField(s)))
    else if code == 7 then (match AsDouble(p) case None => None case Some(d) => Some(RealField(d)))
    else (match AsInt(p) case None => None case Some(i) => Some(IntField(i)))
  }

  /** Vectors that `process_task` can index for every value, with the codes it knows. */
  predicate Sized(t: Task) {
    var n := |t.values|;
    && n <= |t.names| && n <= |t.types| && n <= |t.contents| && n <= |t.directions|
    && n <= |t.streams| && n <= |t.prefixes| && n <= |t.weights| && n <= |t.renames|
    && forall i | 0 <= i < n :: t.types[i] in {0, 4, 7, 8, FILE}
  }

  /** What the runtime is to find for parameter i: value, type, direction, stream, prefix, name,
      content type, weight, keep-rename. */
  function FieldsOf(t: Task, i: nat): (r: seq<Field>)
    requires Sized(t) && i < |t.values| && ValueField(t.values[i], t.types[i]).Some?
    ensures |r| == FIELDS
  {
    [ValueField(t.values[i], t.types[i]).value, IntField(t.types[i]), IntField(t.directions[i]),
     IntField(t.streams[i]), TextField(t.prefixes[i]), TextField(t.names[i]), TextField(t.contents[i]),
     TextField(t.weights[i]), IntField(t.renames[i])]
  }

  /** Which values convert: paths and single strings to text, single doubles to a double, single
      integers and logicals to an integer. */
  lemma WhatConverts(v: SEXP, c: seq<string>, path: string, found: Option<(SEXP, seq<string>)>, code: int)
    ensures ValueField(PathOf(path), code) == if code in {8, 10} then Some(TextField(path)) else None
    ensures ValueField(AsIs(Symbol(found)), code) == None
    ensures ValueField(AsIs(Given(v, c)), code).Some? <==>
            && v.Obj? && v.data.Length() == 1
            && (if code in {8, 10} then v.data.Strings? else if code == 7 then v.data.Reals?
                else v.data.Integers? || v.data.Logicals?)
  {
  }

  /** The nine fields by name. */
  lemma FieldsInOrder(t: Task, i: nat)
    requires Sized(t) && i < |t.values| && ValueField(t.values[i], t.types[i]).Some?
    ensures var f := FieldsOf(t, i);
            && f[0] == ValueField(t.values[i], t.types[i]).value && f[1] == IntField(t.types[i])
            && f[2] == IntField(t.directions[i]) && f[3] == IntField(t.streams[i])
            && f[4] == TextField(t.prefixes[i]) && f[5] == TextField(t.names[i])
            && f[6] == TextField(t.contents[i]) && f[7] == TextField(t.weights[i])
            && f[8] == IntField(t.renames[i])
  {
  }

  /** How many of the first n parameters are strings. */
  function StringRank(types: seq<int>, n: nat): nat
    requires n <= |types|
  {
    if n == 0 then 0 else StringRank(types, n - 1) + (if ByText(types[n - 1]) then 1 else 0)
  }

  lemma {:induction false} RankIsCount(types: seq<int>, n: nat)
    requires n <= |types|
    ensures StringRank(types, n) == multiset(types[..n])[8] + multiset(types[..n])[10]
  {
    if n > 0 {
      RankIsCount(types, n - 1);
      assert types[..n] == types[..n - 1] + [types[n - 1]];
    }
  }

  lemma {:induction false} RankBounds(types: seq<int>, i: nat, n: nat)
    requires i < n <= |types| && ByText(types[i])
    ensures StringRank(types, i) < StringRank(types, n)
  {
    if i < n - 1 { RankBounds(types, i, n - 1); }
  }

  /** The pointers of one row. */
  function Row(value: Pointer, i: nat): (r: seq<Pointer>)
    ensures |r| == FIELDS
  {
    [value, Number(Types, i), Number(Directions, i), Number(Streams, i), Text(Prefixes, i), Text(Names, i),
     Text(Contents, i), Text(Weights, i), Number(Renames, i)]
  }

  class ParameterBlock {
    const task: Task
    const unrolled: array<Pointer>
    const valueAt: array<nat>        // values_charp: an index into valueTexts
    var valueTexts: seq<string>
    var prefixTexts: seq<string>
    var nameTexts: seq<string>
    var contentTexts: seq<string>
    var weightTexts: seq<string>

    ghost predicate Shaped()
      reads this
    {
      && Sized(task)
      && unrolled.Length == FIELDS * |task.values| && valueAt.Length == |task.values|
      && unrolled as object != valueAt as object
    }

    constructor (t: Task)
      requires Sized(t)
      ensures Shaped() && task == t && fresh(unrolled) && fresh(valueAt)
      ensures valueTexts == prefixTexts == nameTexts == contentTexts == weightTexts == []
    {
      task := t;
      unrolled := new Pointer[FIELDS * |t.values|](_ => NoPointer);
      valueAt := new nat[|t.values|](_ => 0);
      valueTexts, prefixTexts, nameTexts, contentTexts, weightTexts := [], [], [], [], [];
    }

    /** What a reader of the block finds behind a pointer; None is a dangling one. */
    ghost function Deref(p: Pointer): Option<Field>
      reads this, valueAt
    {
      match p
      case NoPointer => None
      case Cell(f) => Some(f)
      case Text(t, i) =>
        var table := match t case Prefixes => prefixTexts case Names => nameTexts case Contents => contentTexts
                             case Weights => weightTexts;
        if i < |table| then Some(TextField(table[i])) else None
      case Number(c, i) =>
        var column := match c case Types => task.types case Directions => task.directions
                              case Streams => task.streams case Renames => task.renames;
        if i < |column| then Some(IntField(column[i])) else None
      case ValueText(i) =>
        if i < valueAt.Length && valueAt[i] < |valueTexts| then Some(TextField(valueTexts[valueAt[i]])) else None
    }

    /** The four tables hold the first i entries of their columns. */
    ghost predicate TablesHold(i: nat)
      requires Sized(task) && i <= |task.values|
      reads this
    {
      && prefixTexts == task.prefixes[..i] && nameTexts == task.names[..i]
      && contentTexts == task.contents[..i] && weightTexts == task.weights[..i]
    }

    function ValuePointer(i: nat): Pointer
      requires Sized(task) && i < |task.values| && ValueField(task.values[i], task.types[i]).Some?
    {
      if ByText(task.types[i]) then ValueText(i) else Cell(ValueField(task.values[i], task.types[i]).value)
    }

    /** Row i is in place, and so is its value if it is a string. */
    ghost predicate Filled(i: nat)
      requires Shaped() && i < |task.values|
      reads this, unrolled, valueAt
    {
      && ValueField(task.values[i], task.types[i]).Some?
      && unrolled[FIELDS * i..FIELDS * i + FIELDS] == Row(ValuePointer(i), i)
      && (ByText(task.types[i]) ==>
            && valueAt[i] == StringRank(task.types, i)
            && valueAt[i] < |valueTexts|
            && TextField(valueTexts[valueAt[i]]) == ValueField(task.values[i], task.types[i]).value)
    }

    lemma FilledMeansFields(i: nat)
      requires Shaped() && i < |task.values| && Filled(i) && TablesHold(|task.values|)
      ensures forall k | 0 <= k < FIELDS :: Deref(unrolled[FIELDS * i + k]) == Some(FieldsOf(task, i)[k])
    {
      forall k | 0 <= k < FIELDS ensures Deref(unrolled[FIELDS * i + k]) == Some(FieldsOf(task, i)[k]) {
        assert unrolled[FIELDS * i + k] == Row(ValuePointer(i), i)[k];
      }
    }

    lemma AllFilled()
      requires Shaped() && TablesHold(|task.values|)
      requires forall i | 0 <= i < |task.values| :: Filled(i)
      ensures forall i | 0 <= i < |task.values| :: ValueField(task.values[i], task.types[i]).Some?
      ensures forall i, k | 0 <= i < |task.values| && 0 <= k < FIELDS ::
                Deref(unrolled[FIELDS * i + k]) == Some(FieldsOf(task, i)[k])
    {
      forall i | 0 <= i < |task.values| ensures ValueField(task.values[i], task.types[i]).Some? {
        assert Filled(i);
      }
      hide Filled;
      forall i, k | 0 <= i < |task.values| && 0 <= k < FIELDS
        ensures Deref(unrolled[FIELDS * i + k]) == Some(FieldsOf(task, i)[k])
      {
        FilledMeansFields(i);
      }
    }

    method WriteRow(i: nat, value: Pointer)
      requires Shaped() && i < |task.values|
      modifies unrolled
      ensures unrolled[FIELDS * i..FIELDS * i + FIELDS] == Row(value, i)
      ensures forall k | 0 <= k < unrolled.Length && !(FIELDS * i <= k < FIELDS * i + FIELDS) ::
                unrolled[k] == old(unrolled[k])
    {
      var at := FIELDS * i;
      unrolled[at] := value;
      unrolled[at + 1] := Number(Types, i);
      unrolled[at + 2] := Number(Directions, i);
      unrolled[at + 3] := Number(Streams, i);
      unrolled[at + 4] := Text(Prefixes, i);
      unrolled[at + 5] := Text(Names, i);
      unrolled[at + 6] := Text(Contents, i);
      unrolled[at + 7] := Text(Weights, i);
      unrolled[at + 8] := Number(Renames, i);
    }

    /** One turn of the loop: the rows before i stay as they are. */
    method FillRow(i: nat, strings: nat, field: Field) returns (stringsAfter: nat)
      requires Shaped() && i < |task.values| && TablesHold(i)
      requires ValueField(task.values[i], task.types[i]) == Some(field)
      requires strings == |valueTexts| == StringRank(task.types, i)
      modifies this, unrolled, valueAt
      ensures Shaped() && TablesHold(i + 1)
      ensures stringsAfter == |valueTexts| == StringRank(task.types, i + 1)
      ensures Filled(i) && forall j | 0 <= j < i && old(Filled(j)) :: Filled(j)
    {
      hide ValueField, Row;
      stringsAfter := strings;
      if ByText(task.types[i]) {
        TextFieldOfText(task.values[i], task.types[i]);
        valueTexts := valueTexts + [field.s];
        valueAt[i] := strings;
        stringsAfter := strings + 1;
      }
      WriteRow(i, ValuePointer(i));
      prefixTexts := prefixTexts + [task.prefixes[i]];
      nameTexts := nameTexts + [task.names[i]];
      contentTexts := contentTexts + [task.contents[i]];
      weightTexts := weightTexts + [task.weights[i]];
      forall j | 0 <= j < i && old(Filled(j)) ensures Filled(j) {
        assert unrolled[FIELDS * j..FIELDS * j + FIELDS] == old(unrolled[FIELDS * j..FIELDS * j + FIELDS]);
      }
    }

    /** The loop over the parameters. It succeeds just when every value converts to its type, and
        then slot 9 * i + k leads to field k of parameter i. */
    method Fill() returns (ok: bool)
      requires Shaped()
      requires valueTexts == prefixTexts == nameTexts == contentTexts == weightTexts == []
      modifies this, unrolled, valueAt
      ensures Shaped()
      ensures ok <==> forall i | 0 <= i < |task.values| :: ValueField(task.values[i], task.types[i]).Some?
      ensures ok ==> forall i, k | 0 <= i < |task.values| && 0 <= k < FIELDS ::
                       Deref(unrolled[FIELDS * i + k]) == Some(FieldsOf(task, i)[k])
    {
      hide ValueField, Filled, FieldsOf, Deref;
      var strings := 0;
      for i := 0 to |task.values|
        invariant Shaped() && TablesHold(i)
        invariant strings == |valueTexts| == StringRank(task.types, i)
        invariant forall j | 0 <= j < i :: Filled(j)
      {
        var field := ValueField(task.values[i], task.types[i]);
        if field.None? { return false; }
        strings := FillRow(i, strings, field.value);
      }
      AllFilled();
      return true;
    }
  }

  lemma TextFieldOfText(p: Processed, code: int)
    requires ByText(code) && ValueField(p, code).Some?
    ensures ValueField(p, code).value.TextField?
  {
  }
}
