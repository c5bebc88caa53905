/** One pass of the shell's main loop after the prompt is printed: read an
    edited line, store it in the history, split it and decide what to do. */
module Shell {
  import opened CString
  import opened HistoryStore
  import opened LineEditor
  import opened PathResolver
  import opened Dispatch

  /** Read a line, store it, split it with the corrected tokenizer and
      route it. Arrow keys read on the way move the cursor and the buffer
      even when the input then runs out. */
  method Step(ed: Editor, input: seq<char>, env: Env) returns (action: Option<Action>, rest: seq<char>)
    requires ed.Valid()
    modifies ed`inputPos, ed.current, ed.history`position, ed.history`count, ed.history.items
    ensures ed.Valid()
    ensures match Run(old(ed.history.Entries()), EditState("", old(ed.history.position)), input)
            case Starved(st) =>
              && action == None && rest == []
              && ed.history.Entries() == old(ed.history.Entries())
              && ed.State() == st
            case Line(line, st, after) =>
              && rest == after
              && ed.history.Entries() == Added(old(ed.history.Entries()), line)
              && ed.Text() == st.text
              && ed.history.position ==
                   (if Rejects(old(ed.history.Entries()), line) then st.position
                    else |ed.history.Entries()|)
              && action == Some(Route(Take(Words(line), MaxArgs - 1), env))
  {
    var line;
    line, rest := ed.ReadInput(input);
    if line.None? {
      return None, rest;
    }
    if line.value != "" {
      ed.history.Add(line.value);
    }
    var args := TokenizeTerminated(line.value);
    CommandOfLine(line.value);
    action := Some(Route(ArgVector(args), env));
  }

  /** Typing `cd /tmp` and then `history` lists both lines, since a line is
      stored before it is run; `history` itself routes to the listing. */
  lemma CdThenHistory(env: Env)
    ensures Listing(AddedAll([], ["cd /tmp", "history"])) == [(1, "cd /tmp"), (2, "history")]
    ensures Route(Take(Words("history"), MaxArgs - 1), env) == ShowHistory
  {
    assert ["cd /tmp", "history"][..1] == ["cd /tmp"];
    WordsOfWord("history");
  }

  /** `exit`, with any spaces around it, routes to the exit built-in. */
  lemma ExitLine(env: Env, before: nat, after: nat)
    ensures var line := Spaces(before) + "exit" + Spaces(after);
            Route(Take(Words(line), MaxArgs - 1), env) == Exit
  {
    WordsPadded("exit", before, after);
    WordsOfWord("exit");
  }
}
