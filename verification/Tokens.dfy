/** Splitting a line into its whitespace-separated words. */
module Tokens {

  /** The characters `isspace` accepts in the "C" locale. */
  predicate Space(c: char) {
    c == ' ' || '\t' <= c <= '\r'
  }

  predicate Word(w: string) {
    w != [] && forall i | 0 <= i < |w| :: !Space(w[i])
  }

  function WordEnd(s: string): (e: nat)
    ensures e <= |s| && (forall i | 0 <= i < e :: !Space(s[i])) && (e < |s| ==> Space(s[e]))
  {
    if s == [] || Space(s[0]) then 0 else 1 + WordEnd(s[1..])
  }

  function Split(s: string): (ws: seq<string>)
    ensures forall i | 0 <= i < |ws| :: Word(ws[i])
    decreases |s|
  {
    if s == [] then []
    else if Space(s[0]) then Split(s[1..])
    else [s[..WordEnd(s)]] + Split(s[WordEnd(s)..])
  }

  /** Words put together with single spaces. */
  function Join(ws: seq<string>): string {
    if ws == [] then []
    else if |ws| == 1 then ws[0]
    else ws[0] + " " + Join(ws[1..])
  }

  predicate Words(ws: seq<string>) {
    forall i | 0 <= i < |ws| :: Word(ws[i])
  }

  lemma {:induction false} WordEndAt(w: string, tail: string)
    requires forall i | 0 <= i < |w| :: !Space(w[i])
    requires tail == [] || Space(tail[0])
    ensures WordEnd(w + tail) == |w|
  {
    if w == [] {
      assert w + tail == tail;
    } else {
      assert (w + tail)[1..] == w[1..] + tail;
      WordEndAt(w[1..], tail);
    }
  }

  /** Splitting undoes joining. */
  lemma {:induction false} SplitJoin(ws: seq<string>)
    requires Words(ws)
    ensures Split(Join(ws)) == ws
  {
    if |ws| == 1 {
      assert ws[0] + [] == ws[0];
      WordEndAt(ws[0], []);
      assert Split(ws[0]) == [ws[0]] + Split([]);
    } else if ws != [] {
      var rest := Join(ws[1..]);
      var s := ws[0] + (" " + rest);
      assert Join(ws) == s;
      WordEndAt(ws[0], " " + rest);
      assert s[..|ws[0]|] == ws[0] && s[|ws[0]|..] == " " + rest;
      assert (" " + rest)[1..] == rest;
      SplitJoin(ws[1..]);
    }
  }

  lemma SpacesAre(c: char)
    ensures Space(c) <==> c in {' ', '\t', '\n', 11 as char, 12 as char, '\r'}
  {
  }

  /** A word ends at any blank, and blanks before a word are passed over. */
  lemma SplitAtSpace(w: string, c: char, rest: string)
    requires Word(w) && Space(c)
    ensures Split(w + [c] + rest) == [w] + Split(rest) && Split([c] + rest) == Split(rest)
    ensures Split(w) == [w]
  {
    var s, tail := w + [c] + rest, [c] + rest;
    assert s == w + tail && tail[1..] == rest && tail != [];
    assert s[0] == w[0] && s[|w|..] == tail && s[..|w|] == w;
    WordEndAt(w, tail);
    assert w + [] == w;
    WordEndAt(w, []);
    assert w[..|w|] == w && w[|w|..] == [];
  }

  /** `while (iss >> token)`: skip blanks, take a word, until the input is exhausted. */
  method SplitWhitespace(input: string) returns (tokens: seq<string>)
    ensures tokens == Split(input)
  {
    tokens := [];
    var pos := 0;
    while pos < |input|
      invariant pos <= |input| && tokens + Split(input[pos..]) == Split(input)
      decreases |input| - pos
    {
      if Space(input[pos]) {
        assert input[pos..][1..] == input[pos + 1..];
        pos := pos + 1;
      } else {
        var end := pos;
        while end < |input| && !Space(input[end])
          invariant pos <= end <= |input| && forall i | pos <= i < end :: !Space(input[i])
          decreases |input| - end
        {
          end := end + 1;
        }
        ghost var rest := input[pos..];
        assert rest == input[pos..end] + input[end..];
        WordEndAt(input[pos..end], input[end..]);
        assert rest[..end - pos] == input[pos..end] && rest[end - pos..] == input[end..];
        assert Split(rest) == [input[pos..end]] + Split(input[end..]);
        tokens := tokens + [input[pos..end]];
        pos := end;
      }
    }
  }
}
