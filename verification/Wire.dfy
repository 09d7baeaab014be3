/** The token line of a task request: how the executor takes it apart, and the layout that the
    runtime is assumed to give it, read off the executor's own index arithmetic. */
module Wire {
  import opened Bytes
  import opened Options
  import opened Texts
  import opened Tokens

  // ---------- The request line ----------

  datatype TaskMessage = TaskMessage(taskId: string, sandbox: string, jobOut: string, jobErr: string,
                                     tracing: string, debug: string, moduleFile: string, func: string,
                                     params: seq<string>, cpus: string, gpus: string)

  const EXECUTE := "EXECUTE_TASK"
  const QUIT := "QUIT"

  function ParseTokens(tokens: seq<string>): Option<TaskMessage> {
    if tokens == [] || tokens[0] != EXECUTE || |tokens| < 14 then None else
    var end := |tokens| - 3;
    Some(TaskMessage(tokens[1], tokens[2], tokens[3], tokens[4], tokens[5], tokens[7], tokens[10], tokens[11],
                     if end > 13 then tokens[13..end] else tokens[13..],
                     tokens[|tokens| - 3], tokens[|tokens| - 2]))
  }

  method ParseTaskMessage(line: string) returns (m: Option<TaskMessage>)
    ensures m == ParseTokens(Split(line))
  {
    var tokens := SplitWhitespace(line);
    m := ParseTokens(tokens);
  }

  /** A request line with these fields; `skipped` are the tokens that are never looked at. */
  function RequestTokens(m: TaskMessage, skipped: seq<string>): seq<string>
    requires |skipped| == 5
  {
    ["EXECUTE_TASK", m.taskId, m.sandbox, m.jobOut, m.jobErr, m.tracing, skipped[0], m.debug, skipped[1], skipped[2],
     m.moduleFile, m.func, skipped[3]] + m.params + [m.cpus, m.gpus, skipped[4]]
  }

  /** A request is read back as it was sent exactly when it has parameters: without any, the
      three trailing tokens are taken for the parameters. */
  lemma RequestReadBack(m: TaskMessage, skipped: seq<string>)
    requires |skipped| == 5 && Words(RequestTokens(m, skipped))
    ensures m.params != [] <==> ParseTokens(Split(Join(RequestTokens(m, skipped)))) == Some(m)
    ensures m.params == [] ==>
              ParseTokens(Split(Join(RequestTokens(m, skipped)))) ==
              Some(m.(params := [m.cpus, m.gpus, skipped[4]]))
  {
    var ts := RequestTokens(m, skipped);
    SplitJoin(ts);
    assert ts[13..|ts| - 3] == m.params;
    assert m.params == [] ==> ts[13..] == [m.cpus, m.gpus, skipped[4]];
  }

  // ---------- Text codecs ----------

  /** `std::stoi`, `std::stod` and `rcompss_unserialize`, which throw on some inputs. */
  datatype Codec<!V> = Codec(stoi: string -> Option<int>, stod: string -> Option<Double>, load: string -> Option<V>)

  function ParseBool(s: string): bool {
    s == "TRUE" || s == "T" || s == "1"
  }

  lemma TrueTexts(s: string)
    ensures ParseBool(s) <==> s in {"TRUE", "T", "1"}
  {
  }

  /** What follows the last colon, or everything if there is none. */
  function StripValue(s: string): string
  {
    if ':' !in s then s
    else if s[0] == ':' && ':' !in s[1..] then s[1..]
    else StripValue(s[1..])
  }

  lemma {:induction false} StripValueIsTail(s: string)
    ensures var r := StripValue(s);
            && ':' !in r && |r| <= |s| && r == s[|s| - |r|..]
            && (|r| < |s| ==> s[|s| - |r| - 1] == ':')
  {
    if ':' in s { StripValueIsTail(s[1..]); }
  }

  lemma {:induction false} StripValueOfPath(front: string, path: string)
    requires ':' !in path
    ensures StripValue(front + ":" + path) == path
  {
    var s := front + ":" + path;
    assert s[|front|] == ':';
    if front == [] {
      assert s == ":" + path && s[1..] == path;
    } else {
      assert s[1..] == front[1..] + ":" + path;
      assert s[1..][|front| - 1] == ':';
      StripValueOfPath(front[1..], path);
    }
  }

  // ---------- Arguments ----------

  datatype Arg<V> = Flag(b: bool) | Whole(i: int) | Real(d: Double) | Text(s: string) | Object(v: V) | NullArg

  datatype Named<V> = Named(name: string, arg: Arg<V>)

  predicate Placeholder(name: string) {
    |name| >= |RETURN_SUFFIX| && name[|name| - |RETURN_SUFFIX|..] == RETURN_SUFFIX
  }

  lemma PlaceholderIff(name: string)
    ensures Placeholder(name) <==> exists m: string :: name == m + "-RETURN_VALUE"
  {
    if Placeholder(name) {
      var m := name[..|name| - 13];
      assert name == m + "-RETURN_VALUE";
    }
    if m: string :| name == m + "-RETURN_VALUE" {
      assert name[|m|..] == "-RETURN_VALUE";
    }
  }

  /** `params.at(index - 1)`: a negative or too large index throws. */
  function GetParam(params: seq<string>, index: int): Option<string> {
    if 1 <= index <= |params| then Some(params[index - 1]) else None
  }

  /** `num_words` tokens from `at`, joined by single spaces. */
  function TakeWords(params: seq<string>, at: int, n: int): Option<string>
    decreases n
  {
    if n <= 0 then Some("")
    else if n > 1 && TakeWords(params, at, n - 1).None? then None
    else match GetParam(params, at + n - 1)
         case None => None
         case Some(w) => Some(if n > 1 then TakeWords(params, at, n - 1).value + " " + w else w)
  }

  /** One entry at the cursor: its value, and how far the cursor moves. */
  function EntryAt<V>(params: seq<string>, at: int, codec: Codec<V>): Option<(Named<V>, int)> {
    match (GetParam(params, at), GetParam(params, at + 3), GetParam(params, at + 4), GetParam(params, at + 5))
    case (Some(code), Some(name), content, value) =>
      if code == "0" then
        (match value case None => None case Some(t) => Some((Named(name, Flag(ParseBool(t))), 6)))
      else if code == "4" then
        (match value case None => None case Some(t) =>
           match codec.stoi(t) case None => None case Some(i) => Some((Named(name, Whole(i)), 6)))
      else if code == "7" then
        (match value case None => None case Some(t) =>
           match codec.stod(t) case None => None case Some(d) => Some((Named(name, Real(d)), 6)))
      else if code == "8" then
        (match value case None => None case Some(t) =>
           match codec.stoi(t) case None => None case Some(n) =>
             match TakeWords(params, at + 6, n) case None => None case Some(s) => Some((Named(name, Text(s)), 6 + n)))
      else if code == "10" then
        (match (content, value)
         case (Some(c), Some(t)) =>
           var path := StripValue(t);
           if c == "null" then Some((Named(name, Text(path)), 6))
           else (match codec.load(path) case None => None case Some(v) => Some((Named(name, Object(v)), 6)))
         case _ => None)
      else Some((Named(name, NullArg), 6))
    case _ => None
  }

  /** `n` entries from the cursor on, with the cursor's final position. */
  function Entries<V>(params: seq<string>, at: int, n: nat, codec: Codec<V>): Option<(seq<Named<V>>, int)>
    decreases n
  {
    if n == 0 then Some(([], at)) else
    match EntryAt(params, at, codec)
    case None => None
    case Some((e, width)) =>
      match Entries(params, at + width, n - 1, codec)
      case None => None
      case Some((es, end)) => Some(([e] + es, end))
  }

  function WithoutPlaceholders<V>(es: seq<Named<V>>): seq<Named<V>> {
    if es == [] then []
    else (if Placeholder(es[0].name) then [] else [es[0]]) + WithoutPlaceholders(es[1..])
  }

  datatype Built<V> = Built(args: seq<Named<V>>, returnIndex: int, numReturns: int)

  function IntParam<V>(params: seq<string>, index: int, codec: Codec<V>): Option<int> {
    match GetParam(params, index) case None => None case Some(t) => codec.stoi(t)
  }

  /** `buildFunctionArgs`; None is a throw. */
  function Build<V>(params: seq<string>, codec: Codec<V>): Option<Built<V>> {
    match IntParam(params, 1, codec)
    case None => None
    case Some(nodes) =>
      match (GetParam(params, 1 + nodes + 3), IntParam(params, 1 + nodes + 5, codec),
             IntParam(params, 1 + nodes + 6, codec))
      case (Some(target), Some(rets), Some(count)) =>
        var n := count - rets - (if ParseBool(target) then 1 else 0);
        if n < 0 then None else
        (match Entries(params, nodes + 8, n, codec)
         case None => None
         case Some((es, end)) => Some(Built(WithoutPlaceholders(es), end, rets)))
      case _ => None
  }

  /** With up to three parameters no number of nodes puts both header fields inside the vector. */
  lemma FewParametersThrow<V>(params: seq<string>, codec: Codec<V>)
    requires |params| <= 3
    ensures Build(params, codec) == None
  {
  }

  lemma {:induction false} EntriesSnoc<V>(params: seq<string>, at: int, n: nat, codec: Codec<V>)
    ensures Entries(params, at, n + 1, codec) ==
            match Entries(params, at, n, codec)
            case None => None
            case Some((es, end)) =>
              match EntryAt(params, end, codec)
              case None => None
              case Some((e, width)) => Some((es + [e], end + width))
    decreases n
  {
    hide EntryAt;
    if n == 0 {
      if EntryAt(params, at, codec).Some? {
        var e := EntryAt(params, at, codec).value.0;
        assert [e] + [] == [] + [e];
      }
    } else if EntryAt(params, at, codec).Some? {
      var (e, width) := EntryAt(params, at, codec).value;
      EntriesSnoc(params, at + width, n - 1, codec);
      if Entries(params, at + width, n - 1, codec).Some? {
        var (es, end) := Entries(params, at + width, n - 1, codec).value;
        if EntryAt(params, end, codec).Some? {
          var (x, w) := EntryAt(params, end, codec).value;
          assert [e] + (es + [x]) == [e] + es + [x];
        }
      }
    }
  }

  lemma {:induction false} EntriesFailLater<V>(params: seq<string>, at: int, n: nat, m: nat, codec: Codec<V>)
    requires n <= m && Entries(params, at, n, codec).None?
    ensures Entries(params, at, m, codec).None?
    decreases m
  {
    if n < m {
      EntriesFailLater(params, at, n, m - 1, codec);
      EntriesSnoc(params, at, m - 1, codec);
    }
  }

  lemma {:induction false} FilterSnoc<V>(es: seq<Named<V>>, e: Named<V>)
    ensures WithoutPlaceholders(es + [e]) == WithoutPlaceholders(es) + (if Placeholder(e.name) then [] else [e])
  {
    hide Placeholder;
    if es == [] {
      assert es + [e] == [e] && [e][1..] == [];
    } else {
      assert (es + [e])[0] == es[0] && (es + [e])[1..] == es[1..] + [e];
      FilterSnoc(es[1..], e);
    }
  }

  /** The cursor loop over the entries, and the loop that drops the return placeholders. */
  method BuildFunctionArgs<V>(params: seq<string>, codec: Codec<V>) returns (r: Option<Built<V>>)
    ensures r == Build(params, codec)
  {
    hide EntryAt;
    var nodes := IntParam(params, 1, codec);
    if nodes.None? { return None; }
    var target := GetParam(params, 1 + nodes.value + 3);
    if target.None? { return None; }
    var returns_ := IntParam(params, 1 + nodes.value + 5, codec);
    if returns_.None? { return None; }
    var count := IntParam(params, 1 + nodes.value + 6, codec);
    if count.None? { return None; }
    var firstArg := nodes.value + 8;
    var length := count.value - returns_.value - (if ParseBool(target.value) then 1 else 0);
    if length < 0 { return None; }
    var args: seq<Named<V>> := [];
    for i := 0 to length
      invariant Entries(params, nodes.value + 8, i, codec) == Some((args, firstArg))
    {
      EntriesSnoc(params, nodes.value + 8, i, codec);
      var e := EntryAt(params, firstArg, codec);
      if e.None? {
        EntriesFailLater(params, nodes.value + 8, i + 1, length, codec);
        return None;
      }
      args := args + [e.value.0];
      firstArg := firstArg + e.value.1;
    }
    var kept: seq<Named<V>> := [];
    for i := 0 to |args|
      invariant kept == WithoutPlaceholders(args[..i])
    {
      FilterSnoc(args[..i], args[i]);
      assert args[..i + 1] == args[..i] + [args[i]];
      if !Placeholder(args[i].name) { kept := kept + [args[i]]; }
    }
    assert args[..|args|] == args;
    r := Some(Built(kept, firstArg, returns_.value));
  }

  // ---------- The assumed layout, and its inverse ----------

  /** Six tokens, and for a string entry its words behind them. */
  datatype Entry = Entry(code: string, stream: string, prefix: string, name: string, content: string,
                         value: string, words: seq<string>)

  function EncodeEntry(e: Entry): seq<string> {
    [e.code, e.stream, e.prefix, e.name, e.content, e.value] + e.words
  }

  function EncodeEntries(es: seq<Entry>): seq<string> {
    if es == [] then [] else EncodeEntry(es[0]) + EncodeEntries(es[1..])
  }

  /** The header: the node names behind their number, then six tokens of which the third, fifth
      and sixth are the target flag and the numbers of returns and of arguments. */
  function EncodeHeader(nodeCount: string, nodes: seq<string>, h1: string, h2: string, target: string,
                        h4: string, returns_: string, count: string): seq<string> {
    [nodeCount] + nodes + [h1, h2, target, h4, returns_, count]
  }

  /** An entry that the executor can take apart, and what it makes of it. */
  predicate Decodes<V>(e: Entry, codec: Codec<V>) {
    if e.code == "8" then codec.stoi(e.value) == Some(|e.words|)
    else
      && e.words == []
      && (e.code == "4" ==> codec.stoi(e.value).Some?)
      && (e.code == "7" ==> codec.stod(e.value).Some?)
      && (e.code == "10" && e.content != "null" ==> codec.load(StripValue(e.value)).Some?)
  }

  function Meaning<V>(e: Entry, codec: Codec<V>): Arg<V>
    requires Decodes(e, codec)
  {
    if e.code == "0" then Flag(ParseBool(e.value))
    else if e.code == "4" then Whole(codec.stoi(e.value).value)
    else if e.code == "7" then Real(codec.stod(e.value).value)
    else if e.code == "8" then Text(Join(e.words))
    else if e.code == "10" then
      if e.content == "null" then Text(StripValue(e.value)) else Object(codec.load(StripValue(e.value)).value)
    else NullArg
  }

  predicate AllDecode<V>(es: seq<Entry>, codec: Codec<V>) {
    forall i | 0 <= i < |es| :: Decodes(es[i], codec)
  }

  function Meanings<V>(es: seq<Entry>, codec: Codec<V>): (r: seq<Named<V>>)
    requires AllDecode(es, codec)
    ensures |r| == |es|
  {
    if es == [] then [] else [Named(es[0].name, Meaning(es[0], codec))] + Meanings(es[1..], codec)
  }

  lemma {:induction false} JoinSnoc(ws: seq<string>, w: string)
    requires ws != []
    ensures Join(ws + [w]) == Join(ws) + " " + w
  {
    if |ws| == 1 {
      assert (ws + [w])[1..] == [w];
    } else {
      assert (ws + [w])[0] == ws[0] && (ws + [w])[1..] == ws[1..] + [w];
      JoinSnoc(ws[1..], w);
      assert ws[0] + " " + (Join(ws[1..]) + " " + w) == ws[0] + " " + Join(ws[1..]) + " " + w;
    }
  }

  lemma {:induction false} TakeEncodedWords(front: seq<string>, words: seq<string>, tail: seq<string>, n: nat)
    requires n <= |words|
    ensures TakeWords(front + words + tail, |front| + 1, n) == Some(Join(words[..n]))
  {
    var params := front + words + tail;
    if n > 0 {
      TakeEncodedWords(front, words, tail, n - 1);
      assert params[|front| + n - 1] == words[n - 1];
      assert words[..n] == words[..n - 1] + [words[n - 1]];
      if n > 1 { JoinSnoc(words[..n - 1], words[n - 1]); }
    }
  }

  /** At the position of an encoded entry the executor reads its meaning and skips its width. */
  lemma EntryReadBack<V>(front: seq<string>, e: Entry, tail: seq<string>, codec: Codec<V>)
    requires Decodes(e, codec)
    ensures EntryAt(front + EncodeEntry(e) + tail, |front| + 1, codec) ==
            Some((Named(e.name, Meaning(e, codec)), 6 + |e.words|))
  {
    var params := front + EncodeEntry(e) + tail;
    var at := |front| + 1;
    assert params[at - 1..at + 5] == [e.code, e.stream, e.prefix, e.name, e.content, e.value];
    assert GetParam(params, at) == Some(e.code) && GetParam(params, at + 3) == Some(e.name);
    assert GetParam(params, at + 4) == Some(e.content) && GetParam(params, at + 5) == Some(e.value);
    if e.code == "8" {
      var six := [e.code, e.stream, e.prefix, e.name, e.content, e.value];
      assert params == (front + six) + e.words + tail;
      TakeEncodedWords(front + six, e.words, tail, |e.words|);
      assert e.words[..|e.words|] == e.words;
    }
  }

  lemma {:induction false} EntriesReadBack<V>(front: seq<string>, es: seq<Entry>, tail: seq<string>, codec: Codec<V>)
    requires AllDecode(es, codec)
    ensures Entries(front + EncodeEntries(es) + tail, |front| + 1, |es|, codec) ==
            Some((Meanings(es, codec), |front| + 1 + |EncodeEntries(es)|))
    decreases es
  {
    hide EntryAt, Decodes, Meaning;
    if es != [] {
      var rest := EncodeEntries(es[1..]) + tail;
      assert front + EncodeEntries(es) + tail == front + EncodeEntry(es[0]) + rest;
      EntryReadBack(front, es[0], rest, codec);
      var front' := front + EncodeEntry(es[0]);
      assert front + EncodeEntries(es) + tail == front' + EncodeEntries(es[1..]) + tail;
      EntriesReadBack(front', es[1..], tail, codec);
    }
  }

  lemma HeaderReadBack(nodeCount: string, nodes: seq<string>, h1: string, h2: string, target: string, h4: string,
                       returns_: string, count: string, rest: seq<string>)
    ensures var header := EncodeHeader(nodeCount, nodes, h1, h2, target, h4, returns_, count);
            var params := header + rest;
            var n := |nodes|;
            && |header| == n + 7
            && GetParam(params, 1) == Some(nodeCount) && GetParam(params, 1 + n + 3) == Some(target)
            && GetParam(params, 1 + n + 5) == Some(returns_) && GetParam(params, 1 + n + 6) == Some(count)
  {
    var header := EncodeHeader(nodeCount, nodes, h1, h2, target, h4, returns_, count);
    var n := |nodes|;
    assert header[0] == nodeCount && header[n + 3] == target;
    assert header[n + 5] == returns_ && header[n + 6] == count;
  }

  lemma TailReadBack(front: seq<string>, tail: seq<string>, j: nat)
    requires j < |tail|
    ensures GetParam(front + tail, |front| + 1 + j) == Some(tail[j])
  {
  }

  /** The executor recovers exactly the encoded arguments, in order, without those whose name ends
      in the return suffix; a target object counts as one more. `tail` starts with the return entry,
      whose position it reports. */
  lemma WireParserInverse<V>(nodeCount: string, nodes: seq<string>, h1: string, h2: string, target: string, h4: string,
                             returns_: string, count: string, es: seq<Entry>, tail: seq<string>, codec: Codec<V>)
    requires codec.stoi(nodeCount) == Some(|nodes|) && AllDecode(es, codec) && codec.stoi(returns_).Some?
    requires codec.stoi(count) == Some(|es| + codec.stoi(returns_).value + if ParseBool(target) then 1 else 0)
    ensures var header := EncodeHeader(nodeCount, nodes, h1, h2, target, h4, returns_, count);
            var r := Build(header + EncodeEntries(es) + tail, codec);
            && r.Some?
            && r.value.args == WithoutPlaceholders(Meanings(es, codec))
            && r.value.numReturns == codec.stoi(returns_).value
            && (forall j | 0 <= j < |tail| ::
                  GetParam(header + EncodeEntries(es) + tail, r.value.returnIndex + j) == Some(tail[j]))
  {
    hide Entries, EncodeEntries, Meanings, AllDecode, EncodeHeader, GetParam, ParseBool, WithoutPlaceholders;
    var header := EncodeHeader(nodeCount, nodes, h1, h2, target, h4, returns_, count);
    var params := header + EncodeEntries(es) + tail;
    HeaderReadBack(nodeCount, nodes, h1, h2, target, h4, returns_, count, EncodeEntries(es) + tail);
    assert params == header + (EncodeEntries(es) + tail);
    EntriesReadBack(header, es, tail, codec);
    forall j | 0 <= j < |tail|
      ensures GetParam(params, |header| + 1 + |EncodeEntries(es)| + j) == Some(tail[j])
    {
      TailReadBack(header + EncodeEntries(es), tail, j);
    }
  }
}
