/** Splitting a finished line with `strtok(input, " ")` into the argument
    array of `main`, and the routing decision of `execute_command`. */
module Dispatch {
  import opened CString
  import opened PathResolver

  /** Size of the `args` array. */
  const MaxArgs: nat := 64

  /** The length of the leading run of non-space characters. */
  function RunLength(s: string): (n: nat)
    ensures n <= |s|
    ensures forall k :: 0 <= k < n ==> s[k] != ' '
    ensures n < |s| ==> s[n] == ' '
  {
    if s == [] || s[0] == ' ' then 0 else 1 + RunLength(s[1..])
  }

  predicate IsWord(w: string) {
    w != "" && forall k :: 0 <= k < |w| ==> w[k] != ' '
  }

  /** The tokens of `s`: its maximal runs of characters other than `' '`,
      in order. Only the space delimits; a tab is part of a token. */
  function Words(s: string): (ws: seq<string>)
    ensures forall i :: 0 <= i < |ws| ==> IsWord(ws[i])
    decreases |s|
  {
    if s == [] then []
    else if s[0] == ' ' then Words(s[1..])
    else
      var n := RunLength(s);
      [s[..n]] + Words(s[n..])
  }

  /** The words written out with one space between neighbours. */
  function Join(ws: seq<string>): string {
    if ws == [] then ""
    else if |ws| == 1 then ws[0]
    else ws[0] + " " + Join(ws[1..])
  }

  lemma RunLengthBeforeSpace(a: string, b: string)
    ensures RunLength(a + [' '] + b) == RunLength(a)
  {
    var s := a + [' '] + b;
    var n := RunLength(s);
    var m := RunLength(a);
    assert forall k :: 0 <= k < m ==> s[k] == a[k];
    assert s[|a|] == ' ';
    if m < |a| {
      assert s[m] == ' ';
    }
  }

  /** A space splits the words: the words of `a + " " + b` are those of
      `a` followed by those of `b`. */
  lemma {:induction false} WordsSplit(a: string, b: string)
    ensures Words(a + [' '] + b) == Words(a) + Words(b)
    decreases |a|
  {
    var s := a + [' '] + b;
    if a == [] {
      assert s[1..] == b;
    } else if a[0] == ' ' {
      assert s[1..] == a[1..] + [' '] + b;
      WordsSplit(a[1..], b);
    } else {
      RunLengthBeforeSpace(a, b);
      var n := RunLength(a);
      assert s[..n] == a[..n];
      assert s[n..] == a[n..] + [' '] + b;
      WordsSplit(a[n..], b);
    }
  }

  /** The words of a single word are that word. */
  lemma WordsOfWord(w: string)
    requires IsWord(w)
    ensures Words(w) == [w]
  {
    var n := RunLength(w);
    assert w[..n] == w && w[n..] == [];
  }

  /** Splitting a line joined from words gives the words back. */
  lemma {:induction false} WordsOfJoin(ws: seq<string>)
    requires forall i :: 0 <= i < |ws| ==> IsWord(ws[i])
    ensures Words(Join(ws)) == ws
    decreases |ws|
  {
    if ws != [] {
      WordsOfWord(ws[0]);
      if |ws| > 1 {
        WordsOfJoin(ws[1..]);
        WordsSplit(ws[0], Join(ws[1..]));
        assert ws == [ws[0]] + ws[1..];
      }
    }
  }

  function Spaces(n: nat): string {
    seq(n, _ => ' ')
  }

  /** The words written out with `gaps[k] + 1` spaces after word `k`. */
  function Spread(ws: seq<string>, gaps: seq<nat>): string
    requires |gaps| == if ws == [] then 0 else |ws| - 1
  {
    if ws == [] then ""
    else if |ws| == 1 then ws[0]
    else ws[0] + Spaces(gaps[0] + 1) + Spread(ws[1..], gaps[1..])
  }

  /** Spaces around a line add no words and change none. */
  lemma {:induction false} WordsPadded(s: string, before: nat, after: nat)
    ensures Words(Spaces(before) + s + Spaces(after)) == Words(s)
    decreases before
  {
    if before > 0 {
      var t := Spaces(before) + s + Spaces(after);
      assert t[1..] == Spaces(before - 1) + s + Spaces(after);
      WordsPadded(s, before - 1, after);
    } else if after > 0 {
      assert Spaces(0) + s + Spaces(after) == s + [' '] + Spaces(after - 1);
      WordsSplit(s, Spaces(after - 1));
      SpacesHaveNoWords(after - 1);
    } else {
      assert Spaces(0) + s + Spaces(0) == s;
    }
  }

  lemma {:induction false} SpacesHaveNoWords(n: nat)
    ensures Words(Spaces(n)) == []
    decreases n
  {
    if n > 0 {
      assert Spaces(n)[1..] == Spaces(n - 1);
      SpacesHaveNoWords(n - 1);
    }
  }

  /** Words spread out by runs of spaces split back into those words. */
  lemma {:induction false} WordsOfSpread(ws: seq<string>, gaps: seq<nat>)
    requires forall i :: 0 <= i < |ws| ==> IsWord(ws[i])
    requires |gaps| == if ws == [] then 0 else |ws| - 1
    ensures Words(Spread(ws, gaps)) == ws
    decreases |ws|
  {
    if |ws| == 1 {
      WordsOfWord(ws[0]);
    } else if |ws| >= 2 {
      var tail := Spread(ws[1..], gaps[1..]);
      var pad := Spaces(gaps[0]) + tail + Spaces(0);
      WordsOfSpread(ws[1..], gaps[1..]);
      assert Spaces(gaps[0] + 1) == [' '] + Spaces(gaps[0]);
      assert Spread(ws, gaps) == ws[0] + [' '] + pad;
      WordsSplit(ws[0], pad);
      WordsPadded(tail, gaps[0], 0);
      WordsOfWord(ws[0]);
      assert ws == [ws[0]] + ws[1..];
    }
  }

  /** The first index at or after `i` that is not a space. */
  function SkipSpaces(s: string, i: nat): (j: nat)
    requires i <= |s|
    ensures i <= j <= |s|
    ensures forall k :: i <= k < j ==> s[k] == ' '
    ensures j < |s| ==> s[j] != ' '
    decreases |s| - i
  {
    if i == |s| || s[i] != ' ' then i else SkipSpaces(s, i + 1)
  }

  /** One call of `strtok` with its saved position `from`: the token, and
      the position after the delimiter that `strtok` overwrote. */
  function StrTok(s: string, from: nat): (r: Option<(string, nat)>)
    requires from <= |s|
    ensures r.None? <==> forall k :: from <= k < |s| ==> s[k] == ' '
    ensures r.Some? ==> IsWord(r.value.0) && from < r.value.1 <= |s|
    ensures r.Some? ==> r.value.1 == |s| || s[r.value.1 - 1] == ' '
  {
    var start := SkipSpaces(s, from);
    if start == |s| then None
    else
      var end := start + RunLength(s[start..]);
      Some((s[start..end], if end < |s| then end + 1 else end))
  }

  lemma {:induction false} WordsAfterSpaces(s: string, i: nat)
    requires i <= |s|
    ensures Words(s[i..]) == Words(s[SkipSpaces(s, i)..])
    decreases |s| - i
  {
    if i < |s| && s[i] == ' ' {
      assert s[i..][1..] == s[i + 1..];
      WordsAfterSpaces(s, i + 1);
    }
  }

  lemma WordsAtWordStart(s: string, start: nat)
    requires start < |s| && s[start] != ' '
    ensures var end := start + RunLength(s[start..]);
            end <= |s| && Words(s[start..]) == [s[start..end]] + Words(s[end..])
  {
    var u := s[start..];
    var n := RunLength(u);
    assert u[..n] == s[start..start + n] && u[n..] == s[start + n..];
  }

  lemma WordsAfterDelimiter(s: string, i: nat)
    requires i < |s| && s[i] == ' '
    ensures Words(s[i..]) == Words(s[i + 1..])
  {
    assert s[i..][1..] == s[i + 1..];
  }

  /** Each `strtok` call yields the next word and leaves the rest behind. */
  lemma StrTokWords(s: string, from: nat)
    requires from <= |s|
    ensures StrTok(s, from).None? <==> Words(s[from..]) == []
    ensures StrTok(s, from).Some? ==>
              && from < StrTok(s, from).value.1 <= |s|
              && Words(s[from..]) == [StrTok(s, from).value.0] + Words(s[StrTok(s, from).value.1..])
  {
    var start := SkipSpaces(s, from);
    WordsAfterSpaces(s, from);
    if start == |s| {
      assert s[start..] == [];
      assert StrTok(s, from) == None;
    } else {
      var end := start + RunLength(s[start..]);
      var next := if end < |s| then end + 1 else end;
      WordThenRest(s, start);
      assert StrTok(s, from) == Some((s[start..end], next));
    }
  }

  /** The word starting at `start`, and the words after its delimiter. */
  lemma WordThenRest(s: string, start: nat)
    requires start < |s| && s[start] != ' '
    ensures var end := start + RunLength(s[start..]);
            var next := if end < |s| then end + 1 else end;
            && end <= |s|
            && Words(s[start..]) == [s[start..end]] + Words(s[next..])
  {
    WordsAtWordStart(s, start);
    var end := start + RunLength(s[start..]);
    if end < |s| {
      WordsAfterDelimiter(s, end);
    }
  }

  /** The first call `strtok(input, " ")` yields the first word, or NULL
      when the line has none. */
  lemma FirstToken(line: string, ws: seq<string>)
    requires ws == Words(line)
    ensures StrTok(line, 0).None? <==> ws == []
    ensures StrTok(line, 0).Some? ==>
              var (t, after) := StrTok(line, 0).value;
              ws != [] && t == ws[0] && after <= |line| && Words(line[after..]) == ws[1..]
  {
    assert line[0..] == line;
    StrTokWords(line, 0);
    if StrTok(line, 0).Some? {
      assert ws == [ws[0]] + ws[1..];
    }
  }

  /** A `strtok(NULL, " ")` after the first `i + 1` words yields word
      `i + 1`, or NULL when there is none. */
  lemma NextToken(line: string, next: nat, ws: seq<string>, i: nat)
    requires next <= |line| && i < |ws| && Words(line[next..]) == ws[i + 1..]
    ensures StrTok(line, next).None? <==> i + 1 == |ws|
    ensures StrTok(line, next).Some? ==>
              var (t, after) := StrTok(line, next).value;
              i + 1 < |ws| && t == ws[i + 1] && after <= |line| && Words(line[after..]) == ws[i + 2..]
  {
    StrTokWords(line, next);
    if StrTok(line, next).Some? {
      assert ws[i + 1..] == [ws[i + 1]] + ws[i + 2..];
    }
  }

  /** The `args` array with the words stored in order and NULL (`None`)
      after them. */
  function Slots(ws: seq<string>, m: nat): seq<Option<string>> {
    seq(m, k => if 0 <= k < |ws| then Some(ws[k]) else None)
  }

  /** At most the first `n` of `ws`. */
  function Take(ws: seq<string>, n: nat): seq<string> {
    if |ws| <= n then ws else ws[..n]
  }

  /** The `main` loop `args[i] = strtok(...); while (args[i] && i < last)
      args[++i] = strtok(NULL, " ")`: at most `last + 1` tokens stored. */
  method FillArgs(line: string, last: nat) returns (args: seq<Option<string>>)
    requires last < MaxArgs
    ensures args == Slots(Take(Words(line), last + 1), MaxArgs)
  {
    ghost var ws := Words(line);
    var a := new Option<string>[MaxArgs](_ => None);
    var i := 0;
    var next: nat := 0;
    FirstToken(line, ws);
    var tok := StrTok(line, 0);
    if tok.Some? {
      a[0] := Some(tok.value.0);
      next := tok.value.1;
    }
    while a[i].Some? && i < last
      invariant 0 <= i <= last && i <= |ws|
      invariant next <= |line|
      invariant forall k :: 0 <= k < MaxArgs ==> a[k] == if k <= i && k < |ws| then Some(ws[k]) else None
      invariant a[i].Some? ==> i < |ws| && Words(line[next..]) == ws[i + 1..]
      decreases last - i
    {
      NextToken(line, next, ws, i);
      tok := StrTok(line, next);
      i := i + 1;
      if tok.Some? {
        a[i] := Some(tok.value.0);
        next := tok.value.1;
      }
    }
    ghost var want := Slots(Take(ws, last + 1), MaxArgs);
    assert a[i].Some? ==> i == last;
    assert a[i].None? ==> i == |ws|;
    forall k | 0 <= k < MaxArgs ensures a[k] == want[k] {
    }
    args := a[..];
  }

  /** The tokenizer of `main` as written: the 64th token lands in `args[63]`,
      and then no NULL is left to end the argument vector. */
  method Tokenize(line: string) returns (args: seq<Option<string>>)
    ensures args == Slots(Words(line), MaxArgs)
    ensures None in args <==> |Words(line)| < MaxArgs
  {
    args := FillArgs(line, MaxArgs - 1);
    assert Slots(Take(Words(line), MaxArgs), MaxArgs) == Slots(Words(line), MaxArgs);
    if |Words(line)| < MaxArgs {
      assert args[MaxArgs - 1] == None;
    }
  }

  /** A line of 64 one-letter words fills every slot of `args`. */
  lemma SixtyFourWordsFillEverySlot()
    ensures var line := Join(seq(MaxArgs, _ => "a"));
            |Words(line)| == MaxArgs && None !in Slots(Words(line), MaxArgs)
  {
    var ws := seq(MaxArgs, _ => "a");
    assert forall i :: 0 <= i < |ws| ==> ws[i] == "a" && IsWord(ws[i]);
    WordsOfJoin(ws);
    var slots := Slots(ws, MaxArgs);
    assert forall k :: 0 <= k < MaxArgs ==> slots[k] == Some("a");
  }

  /** The tokenizer with the loop stopped one slot earlier, so that
      `args[63]` always stays NULL. */
  method TokenizeTerminated(line: string) returns (args: seq<Option<string>>)
    ensures args == Slots(Take(Words(line), MaxArgs - 1), MaxArgs)
    ensures |args| == MaxArgs && args[MaxArgs - 1] == None
  {
    args := FillArgs(line, MaxArgs - 2);
  }

  /** What `execvp` and `execute_command` see: the strings before the first
      NULL of the array. */
  function ArgVector(args: seq<Option<string>>): (r: seq<string>)
    ensures |r| <= |args|
    ensures forall k :: 0 <= k < |r| ==> args[k] == Some(r[k])
    ensures |r| < |args| ==> args[|r|].None?
  {
    if args == [] || args[0].None? then [] else [args[0].value] + ArgVector(args[1..])
  }

  lemma {:induction false} ArgVectorOfSlots(ws: seq<string>, m: nat)
    ensures ArgVector(Slots(ws, m)) == Take(ws, m)
    decreases m
  {
    var a := Slots(ws, m);
    if m > 0 && ws != [] {
      var b := Slots(ws[1..], m - 1);
      forall k | 0 <= k < m - 1 ensures a[1..][k] == b[k] {
        assert a[1..][k] == a[k + 1];
      }
      assert a[1..] == b;
      assert a[0] == Some(ws[0]);
      ArgVectorOfSlots(ws[1..], m - 1);
      assert Take(ws, m) == [ws[0]] + Take(ws[1..], m - 1);
    }
  }

  /** With the corrected tokenizer the argument vector of a line is its
      first 63 words, and all of them for a shorter line. */
  lemma CommandOfLine(line: string)
    ensures ArgVector(Slots(Take(Words(line), MaxArgs - 1), MaxArgs)) == Take(Words(line), MaxArgs - 1)
    ensures |Words(line)| < MaxArgs ==>
              ArgVector(Slots(Take(Words(line), MaxArgs - 1), MaxArgs)) == Words(line)
  {
    ArgVectorOfSlots(Take(Words(line), MaxArgs - 1), MaxArgs);
  }

  /** With the tokenizer as written a line of fewer than 64 words gives
      all its words, while a longer one fills every slot, so no NULL ends
      the vector inside the array. */
  lemma CommandOfLineAsWritten(line: string)
    ensures |Words(line)| < MaxArgs ==> ArgVector(Slots(Words(line), MaxArgs)) == Words(line)
    ensures |Words(line)| >= MaxArgs ==>
              forall k :: 0 <= k < MaxArgs ==> Slots(Words(line), MaxArgs)[k] == Some(Words(line)[k])
  {
    ArgVectorOfSlots(Words(line), MaxArgs);
  }

  /** What `execute_command` does with an argument vector. `Cd(None)` is a
      `cd` whose target could not be found: an error is printed. */
  datatype Action =
    | Noop
    | Cd(target: Option<string>)
    | Exit
    | ShowHistory
    | External(argv: seq<string>)

  function Route(argv: seq<string>, env: Env): (r: Action)
    ensures r.Noop? <==> argv == []
    ensures r.Cd? ==> argv != [] && argv[0] == "cd"
    ensures r.External? ==> r.argv == argv && argv[0] !in {"cd", "exit", "history"}
  {
    if argv == [] then Noop
    else if argv[0] == "cd" then Cd(if |argv| > 1 then Resolve(argv[1], env) else env.homeVar)
    else if argv[0] == "exit" then Exit
    else if argv[0] == "history" then ShowHistory
    else External(argv)
  }

  /** No tokens, no action; `cd` goes to HOME without an argument and to
      the resolved first argument otherwise, ignoring the rest; `exit` and
      `history` ignore their arguments; anything else runs with the whole
      vector. */
  lemma RouteCases(argv: seq<string>, env: Env)
    ensures argv == [] ==> Route(argv, env) == Noop
    ensures argv == ["cd"] ==> Route(argv, env) == Cd(env.homeVar)
    ensures |argv| >= 2 && argv[0] == "cd" ==>
              Route(argv, env) == Cd(Resolve(argv[1], env)) == Route(argv[..2], env)
    ensures argv != [] && argv[0] in {"exit", "history"} ==> Route(argv, env) == Route([argv[0]], env)
    ensures argv != [] && argv[0] !in {"cd", "exit", "history"} ==> Route(argv, env) == External(argv)
  {
  }

  /** A line of at most 63 words routes by its words, however many spaces
      come before, between and after them. */
  lemma RouteLine(ws: seq<string>, gaps: seq<nat>, before: nat, after: nat, env: Env)
    requires |ws| < MaxArgs
    requires forall i :: 0 <= i < |ws| ==> IsWord(ws[i])
    requires |gaps| == if ws == [] then 0 else |ws| - 1
    ensures var line := Spaces(before) + Spread(ws, gaps) + Spaces(after);
            Route(ArgVector(Slots(Take(Words(line), MaxArgs - 1), MaxArgs)), env) == Route(ws, env)
  {
    var line := Spaces(before) + Spread(ws, gaps) + Spaces(after);
    WordsPadded(Spread(ws, gaps), before, after);
    WordsOfSpread(ws, gaps);
    CommandOfLine(line);
  }
}
