/** The executor: one request, one reply. What R, the file system and the user's code do with a
    request is a `World`; the theorems hold for every sequence of worlds. */
module Executor {
  import opened Options
  import opened Texts
  import opened Tokens
  import opened Wire

  /** How the outside reacts while one task runs; a function that is false or None has thrown. */
  datatype World<!V> = World(readable: string -> bool, source: string -> bool, defined: string -> bool,
                             codec: Codec<V>, call: (string, seq<Named<V>>) -> Option<V>,
                             save: (V, string, string) -> bool)

  /** Where and how the return value of a request is to be written. */
  function ReturnTarget(params: seq<string>, returnIndex: int): Option<(string, string)> {
    match (GetParam(params, returnIndex + 3), GetParam(params, returnIndex + 5))
    case (Some(name), Some(path)) => Some((StripValue(path), BeforeDash(name)))
    case _ => None
  }

  /** The call of the user's function, when the request gets that far. */
  function CallResult<V>(m: TaskMessage, w: World<V>): Option<V> {
    if !(w.readable(m.moduleFile) && w.source(m.moduleFile) && w.defined(m.func)) then None else
    match Build(m.params, w.codec)
    case None => None
    case Some(b) => w.call(m.func, b.args)
  }

  /** The return value, when one is asked for, was located and written. */
  predicate Returned<V>(m: TaskMessage, w: World<V>, b: Built<V>, result: V) {
    b.numReturns > 0 ==>
      match ReturnTarget(m.params, b.returnIndex)
      case None => false
      case Some((path, how)) => w.save(result, path, how)
  }

  /** The call completed, and so did writing its value if one was asked for. */
  predicate Completed<V>(m: TaskMessage, w: World<V>) {
    && CallResult(m, w).Some?
    && Returned(m, w, Build(m.params, w.codec).value, CallResult(m, w).value)
  }

  function Reply(m: TaskMessage, ok: bool): string {
    "END_TASK " + m.taskId + (if ok then " 0" else " 1")
  }

  /** The requests among the lines before the first QUIT; empty and foreign lines are passed over. */
  function Requests(lines: seq<string>): seq<TaskMessage> {
    if lines == [] || lines[0] == QUIT then []
    else (match ParseTokens(Split(lines[0])) case None => [] case Some(m) => [m]) + Requests(lines[1..])
  }

  /** One reply for each request, in order, with its id and whether it completed. */
  function Replies<V>(ms: seq<TaskMessage>, worlds: nat -> World<V>, from: nat): (rs: seq<string>)
    ensures |rs| == |ms|
  {
    if ms == [] then []
    else [Reply(ms[0], Completed(ms[0], worlds(from)))] + Replies(ms[1..], worlds, from + 1)
  }

  lemma EmptyLineIsNoRequest()
    ensures ParseTokens(Split("")) == None
  {
  }

  lemma {:induction false} RepliesSnoc<V>(ms: seq<TaskMessage>, m: TaskMessage, worlds: nat -> World<V>, from: nat)
    ensures Replies(ms + [m], worlds, from) ==
            Replies(ms, worlds, from) + [Reply(m, Completed(m, worlds(from + |ms|)))]
  {
    hide Completed, Reply;
    if ms == [] {
      assert ms + [m] == [m] && [m][1..] == [];
    } else {
      assert (ms + [m])[0] == ms[0] && (ms + [m])[1..] == ms[1..] + [m];
      RepliesSnoc(ms[1..], m, worlds, from + 1);
    }
  }

  /** The i-th reply answers the i-th request, and says 0 exactly when that task completed. */
  lemma {:induction false} ReplyAt<V>(ms: seq<TaskMessage>, worlds: nat -> World<V>, from: nat, i: nat)
    requires i < |ms|
    ensures Replies(ms, worlds, from)[i] == Reply(ms[i], Completed(ms[i], worlds(from + i)))
  {
    hide Completed, Reply;
    if i > 0 { ReplyAt(ms[1..], worlds, from + 1, i - 1); }
  }

  lemma ReplyText(m: TaskMessage, ok: bool)
    ensures Reply(m, ok) == "END_TASK " + m.taskId + if ok then " 0" else " 1"
  {
  }

  /** The words of a reply: 0 for a task that completed, 1 for any other. */
  lemma ReplyWords(m: TaskMessage, ok: bool)
    requires Word(m.taskId)
    ensures ok ==> Split(Reply(m, ok)) == ["END_TASK", m.taskId, "0"]
    ensures !ok ==> Split(Reply(m, ok)) == ["END_TASK", m.taskId, "1"]
  {
    var words := ["END_TASK", m.taskId, if ok then "0" else "1"];
    assert Words(words);
    assert words[1..] == [words[1], words[2]] && words[1..][1..] == [words[2]];
    assert Join([words[2]]) == words[2] && Join(words[1..]) == words[1] + " " + words[2];
    assert Join(words) == words[0] + " " + (words[1] + " " + words[2]);
    assert Reply(m, ok) == "END_TASK" + " " + (m.taskId + " " + words[2]);
    SplitJoin(words);
  }

  lemma {:induction false} RequestIdsAreWords(lines: seq<string>, i: nat)
    requires i < |Requests(lines)|
    ensures Word(Requests(lines)[i].taskId)
  {
    hide Split;
    var first := if ParseTokens(Split(lines[0])).Some? then 1 else 0;
    if i >= first { RequestIdsAreWords(lines[1..], i - first); }
  }

  /** The i-th line that `Run` writes, word by word. */
  lemma ReplyLine<V>(lines: seq<string>, worlds: nat -> World<V>, i: nat)
    requires i < |Requests(lines)|
    ensures var m := Requests(lines)[i];
            Split(Replies(Requests(lines), worlds, 0)[i]) ==
            ["END_TASK", m.taskId, if Completed(m, worlds(i)) then "0" else "1"]
  {
    hide Completed, Reply, Requests, Split;
    ReplyAt(Requests(lines), worlds, 0, i);
    RequestIdsAreWords(lines, i);
    ReplyWords(Requests(lines)[i], Completed(Requests(lines)[i], worlds(i)));
  }

  lemma ReplyLines<V>(lines: seq<string>, worlds: nat -> World<V>, before: seq<string>, after: seq<string>)
    requires after == before + Replies(Requests(lines), worlds, 0)
    ensures forall i | 0 <= i < |Requests(lines)| ::
              Split(after[|before| + i]) ==
              ["END_TASK", Requests(lines)[i].taskId, if Completed(Requests(lines)[i], worlds(i)) then "0" else "1"]
  {
    hide Completed, Replies, Requests, Split;
    forall i | 0 <= i < |Requests(lines)|
      ensures Split(after[|before| + i]) ==
              ["END_TASK", Requests(lines)[i].taskId, if Completed(Requests(lines)[i], worlds(i)) then "0" else "1"]
    {
      ReplyLine(lines, worlds, i);
    }
  }

  lemma ReplyDetermines(m: TaskMessage, n: TaskMessage, a: bool, b: bool)
    requires Reply(m, a) == Reply(n, b)
    ensures m.taskId == n.taskId && a == b
  {
    var r, s := Reply(m, a), Reply(n, b);
    assert r[|r| - 1] == (if a then '0' else '1') && s[|s| - 1] == (if b then '0' else '1');
    assert r[9..|r| - 2] == m.taskId && s[9..|s| - 2] == n.taskId;
  }

  lemma {:induction false} NothingAfterQuit(lines: seq<string>, more: seq<string>)
    ensures Requests(lines + ["QUIT"] + more) == Requests(lines)
  {
    hide ParseTokens, Split;
    var all := lines + ["QUIT"] + more;
    if lines == [] {
      assert all[0] == QUIT;
    } else {
      assert all[0] == lines[0] && all[1..] == lines[1..] + ["QUIT"] + more;
      NothingAfterQuit(lines[1..], more);
    }
  }

  lemma {:induction false} RequestsConcat(a: seq<string>, b: seq<string>)
    requires QUIT !in a
    ensures Requests(a + b) == Requests(a) + Requests(b)
  {
    hide ParseTokens, Split;
    if a == [] {
      assert a + b == b;
    } else {
      assert (a + b)[0] == a[0] && (a + b)[1..] == a[1..] + b;
      RequestsConcat(a[1..], b);
    }
  }

  /** A request that was sent without parameters is read with the three words behind them in their
      place, and its task fails whatever the world does: the function is not called. */
  lemma RequestWithoutParametersFails<V>(m: TaskMessage, skipped: seq<string>, w: World<V>)
    requires |skipped| == 5 && Words(RequestTokens(m, skipped)) && m.params == []
    ensures var read := ParseTokens(Split(Join(RequestTokens(m, skipped))));
            && read == Some(m.(params := [m.cpus, m.gpus, skipped[4]]))
            && CallResult(read.value, w) == None && !Completed(read.value, w)
  {
    hide Build, ParseTokens;
    RequestReadBack(m, skipped);
    FewParametersThrow([m.cpus, m.gpus, skipped[4]], w.codec);
  }

  class Core {
    var output: seq<string>   // the lines written to the output pipe

    constructor ()
      ensures output == []
    {
      output := [];
    }

    /** `executeTask`: every way out of it writes exactly one reply. */
    method ExecuteTask<V>(m: TaskMessage, w: World<V>) returns (ok: bool)
      modifies this
      ensures ok == Completed(m, w)
      ensures output == old(output) + ["END_TASK " + m.taskId + if ok then " 0" else " 1"]
    {
      if !w.readable(m.moduleFile) {
        output := output + [Reply(m, false)];
        return false;
      }
      ok := TryTask(m, w);
      output := output + [Reply(m, ok)];
    }

    /** The body of the try block; false stands for an exception or the early return. */
    method TryTask<V>(m: TaskMessage, w: World<V>) returns (ok: bool)
      requires w.readable(m.moduleFile)
      ensures ok == Completed(m, w)
    {
      hide Build, GetParam;
      if !w.source(m.moduleFile) { return false; }
      if !w.defined(m.func) { return false; }
      var built := BuildFunctionArgs(m.params, w.codec);
      if built.None? { return false; }
      var result := w.call(m.func, built.value.args);
      if result.None? { return false; }
      if built.value.numReturns > 0 {
        var name := GetParam(m.params, built.value.returnIndex + 3);
        if name.None? { return false; }
        var how := BeforeDash(name.value);
        var raw := GetParam(m.params, built.value.returnIndex + 5);
        if raw.None? { return false; }
        var path := StripValue(raw.value);
        if !w.save(result.value, path, how) { return false; }
      }
      return true;
    }

    /** The loop of `run`: the replies are one per request before the first QUIT, in order. */
    method Run<V>(lines: seq<string>, worlds: nat -> World<V>)
      modifies this
      ensures output == old(output) + Replies(Requests(lines), worlds, 0)
      ensures |output| == |old(output)| + |Requests(lines)|
      ensures forall i | 0 <= i < |Requests(lines)| ::
                Split(output[|old(output)| + i]) ==
                ["END_TASK", Requests(lines)[i].taskId, if Completed(Requests(lines)[i], worlds(i)) then "0" else "1"]
    {
      hide Completed, Reply, ParseTokens, Split;
      ghost var done: seq<TaskMessage> := [];
      var executed := 0;
      var i := 0;
      while i < |lines|
        invariant i <= |lines| && executed == |done|
        invariant Requests(lines) == done + Requests(lines[i..])
        invariant output == old(output) + Replies(done, worlds, 0)
        decreases |lines| - i
      {
        var line := lines[i];
        ghost var rest := lines[i..];
        assert rest[0] == line && rest[1..] == lines[i + 1..];
        if line == QUIT {
          assert Requests(rest) == [];
          break;
        }
        if line == "" {
          EmptyLineIsNoRequest();
          assert Requests(rest) == Requests(lines[i + 1..]);
        } else {
          var m := ParseTaskMessage(line);
          match m {
            case None =>
              assert Requests(rest) == Requests(lines[i + 1..]);
            case Some(message) =>
              var ok := ExecuteTask(message, worlds(executed));
              ReplyText(message, ok);
              RepliesSnoc(done, message, worlds, 0);
              executed := executed + 1;
              done := done + [message];
          }
        }
        i := i + 1;
      }
      assert Requests(lines) == done by {
        assert done + [] == done;
      }
      ReplyLines(lines, worlds, old(output), output);
    }
  }
}
