/** The line editor of `read_input`: a byte-at-a-time loop over raw input
    that edits a bounded buffer at its end and pages through the history
    with the up and down arrows. */
module LineEditor {
  import opened CString
  import opened HistoryStore

  /** Size of `current_input`, the terminating NUL included. */
  const MaxInput: nat := 1024

  const Escape: char := 27 as char
  const Backspace: char := 8 as char
  const Delete: char := 127 as char

  /** `isprint` in the C locale. */
  predicate Printable(c: char) {
    ' ' <= c <= '~'
  }

  /** What the editor shows: the buffer's text and the history cursor. */
  datatype EditState = EditState(text: string, position: nat)

  /** The editor's bounds: the text fits the buffer and the cursor lies in
      `[0, count]`. */
  predicate InBounds(entries: seq<string>, st: EditState) {
    |st.text| < MaxInput && st.position <= |entries|
  }

  /** The buffer shows what the cursor points at: the entry, cut to the
      buffer, or nothing at the blank slot `count`. */
  predicate Shows(entries: seq<string>, st: EditState) {
    && st.position <= |entries|
    && (st.position < |entries| ==> st.text == Bounded(entries[st.position], MaxInput))
    && (st.position == |entries| ==> st.text == "")
  }

  /** `handle_arrow_up`: step back to the previous entry, if there is one. */
  function Up(entries: seq<string>, st: EditState): (r: EditState)
    requires st.position <= |entries|
    ensures InBounds(entries, st) ==> InBounds(entries, r)
    ensures r.position == if st.position > 0 then st.position - 1 else 0
    ensures st.position > 0 ==> Shows(entries, r)
    ensures st.position == 0 ==> r == st
  {
    if st.position > 0 then
      EditState(Bounded(entries[st.position - 1], MaxInput), st.position - 1)
    else st
  }

  /** `handle_arrow_down`: step forward to the next entry, or to the blank
      slot past the newest one. */
  function Down(entries: seq<string>, st: EditState): (r: EditState)
    requires st.position <= |entries|
    ensures InBounds(entries, r)
    ensures r.position == if st.position < |entries| then st.position + 1 else |entries|
    ensures Shows(entries, r)
  {
    if st.position < |entries| - 1 then
      EditState(Bounded(entries[st.position + 1], MaxInput), st.position + 1)
    else EditState("", |entries|)
  }

  /** The two bytes that follow ESC. */
  function EscapeSequence(entries: seq<string>, st: EditState, a: char, b: char): (r: EditState)
    requires st.position <= |entries|
    ensures r.position <= |entries|
    ensures InBounds(entries, st) ==> InBounds(entries, r)
    ensures a == '[' && b == 'A' ==> r == Up(entries, st)
    ensures a == '[' && b == 'B' ==> r == Down(entries, st)
    ensures !(a == '[' && (b == 'A' || b == 'B')) ==> r == st
  {
    if a == '[' && b == 'A' then Up(entries, st)
    else if a == '[' && b == 'B' then Down(entries, st)
    else st
  }

  /** Any byte other than newline and ESC. */
  function KeyByte(st: EditState, c: char): (r: EditState)
    ensures r.position == st.position
    ensures |st.text| < MaxInput ==> |r.text| < MaxInput
    ensures IsPrefix(r.text, st.text) || r.text == st.text + [c]
    ensures (c == Delete || c == Backspace) && st.text != [] ==> r.text == st.text[..|st.text| - 1]
    ensures c != Delete && c != Backspace && !Printable(c) ==> r == st
  {
    if c == Delete || c == Backspace then
      if |st.text| > 0 then EditState(st.text[..|st.text| - 1], st.position) else st
    else if Printable(c) then
      if |st.text| < MaxInput - 1 then EditState(st.text + [c], st.position) else st
    else st
  }

  /** How `read_input` ends: a finished line with the bytes after its
      newline, or the input ran out first. */
  datatype Outcome = Line(line: string, state: EditState, rest: seq<char>) | Starved(state: EditState)

  /** The reference semantics of the `read_input` loop from state `st`. */
  function Run(entries: seq<string>, st: EditState, input: seq<char>): (r: Outcome)
    requires st.position <= |entries|
    ensures r.state.position <= |entries|
    ensures r.Line? ==> r.line == r.state.text
    ensures r.Line? ==> |r.rest| < |input| && input[|input| - |r.rest| - 1] == '\n'
                        && r.rest == input[|input| - |r.rest|..]
    decreases |input|
  {
    if input == [] then Starved(st)
    else if input[0] == '\n' then Line(st.text, st, input[1..])
    else if input[0] == Escape then
      if |input| < 3 then Starved(st)
      else Run(entries, EscapeSequence(entries, st, input[1], input[2]), input[3..])
    else Run(entries, KeyByte(st, input[0]), input[1..])
  }

  /** The editor never leaves its bounds, whatever the input. */
  lemma {:induction false} RunInBounds(entries: seq<string>, st: EditState, input: seq<char>)
    requires InBounds(entries, st)
    ensures InBounds(entries, Run(entries, st, input).state)
    ensures Run(entries, st, input).Line? ==> |Run(entries, st, input).line| < MaxInput
    decreases |input|
  {
    if input != [] && input[0] != '\n' {
      if input[0] == Escape {
        if |input| >= 3 {
          RunInBounds(entries, EscapeSequence(entries, st, input[1], input[2]), input[3..]);
        }
      } else {
        RunInBounds(entries, KeyByte(st, input[0]), input[1..]);
      }
    }
  }

  /** Typing printable bytes and a newline gives the text typed, cut at the
      buffer's capacity; the rest of the input is left unread. */
  lemma {:induction false} TypedLine(entries: seq<string>, st: EditState, typed: seq<char>, rest: seq<char>)
    requires InBounds(entries, st)
    requires forall i :: 0 <= i < |typed| ==> Printable(typed[i])
    ensures var full := st.text + typed;
            Run(entries, st, typed + ['\n'] + rest)
            == Line(Bounded(full, MaxInput), EditState(Bounded(full, MaxInput), st.position), rest)
    decreases |typed|
  {
    var input := typed + ['\n'] + rest;
    if typed == [] {
      assert input[0] == '\n' && input[1..] == rest;
    } else {
      var c := typed[0];
      assert input[0] == c && input[1..] == typed[1..] + ['\n'] + rest;
      assert c != '\n' && c != Escape && c != Delete && c != Backspace;
      var next := KeyByte(st, c);
      TypedLine(entries, next, typed[1..], rest);
      if |st.text| < MaxInput - 1 {
        assert next.text + typed[1..] == st.text + typed;
      } else {
        assert next == st;
        assert Bounded(st.text + typed[1..], MaxInput) == st.text;
        assert Bounded(st.text + typed, MaxInput) == st.text;
      }
    }
  }

  /** Appending a printable byte and then erasing it restores the state. */
  lemma BackspaceUndoesKey(st: EditState, c: char, erase: char)
    requires Printable(c) && |st.text| < MaxInput - 1
    requires erase == Delete || erase == Backspace
    ensures KeyByte(KeyByte(st, c), erase) == st
  {
    assert (st.text + [c])[..|st.text|] == st.text;
  }

  /** Backspace on an empty buffer, a printable byte on a full one, and a
      byte that is neither change nothing. */
  lemma KeyByteNoops(st: EditState, c: char)
    ensures (c == Delete || c == Backspace) && st.text == [] ==> KeyByte(st, c) == st
    ensures Printable(c) && |st.text| >= MaxInput - 1 ==> KeyByte(st, c) == st
    ensures !Printable(c) && c != Delete && c != Backspace ==> KeyByte(st, c) == st
  {
  }

  /** ESC always takes the next two bytes with it, whatever they are. */
  lemma EscapeTakesTwoBytes(entries: seq<string>, st: EditState, a: char, b: char, rest: seq<char>)
    requires st.position <= |entries|
    ensures Run(entries, st, [Escape, a, b] + rest) == Run(entries, EscapeSequence(entries, st, a, b), rest)
  {
    assert ([Escape, a, b] + rest)[3..] == rest;
  }

  /** On the input, ESC `[A` is arrow up and ESC `[B` is arrow down. */
  lemma ArrowKeysRecall(entries: seq<string>, st: EditState, rest: seq<char>)
    requires st.position <= |entries|
    ensures Run(entries, st, [Escape, '[', 'A'] + rest) == Run(entries, Up(entries, st), rest)
    ensures Run(entries, st, [Escape, '[', 'B'] + rest) == Run(entries, Down(entries, st), rest)
  {
    EscapeTakesTwoBytes(entries, st, '[', 'A', rest);
    EscapeTakesTwoBytes(entries, st, '[', 'B', rest);
  }

  /** An escape sequence other than `[A` and `[B` changes nothing. */
  lemma OtherEscapeIgnored(entries: seq<string>, st: EditState, a: char, b: char)
    requires st.position <= |entries|
    requires !(a == '[' && (b == 'A' || b == 'B'))
    ensures EscapeSequence(entries, st, a, b) == st
  {
  }

  /** Recall through the entries [a, b, c] from the blank slot. Up gives c,
      b, a and then stays; down gives b, c, the blank line, and the blank
      line again. */
  lemma RecallWalk(a: string, b: string, c: string, typed: string)
    requires |a| < MaxInput && |b| < MaxInput && |c| < MaxInput
    ensures var e := [a, b, c];
            var u1 := Up(e, EditState(typed, 3));
            var u2 := Up(e, u1);
            var u3 := Up(e, u2);
            var u4 := Up(e, u3);
            var d1 := Down(e, u4);
            var d2 := Down(e, d1);
            var d3 := Down(e, d2);
            var d4 := Down(e, d3);
            && u1 == EditState(c, 2) && u2 == EditState(b, 1) && u3 == EditState(a, 0)
            && u4 == u3
            && d1 == EditState(b, 1) && d2 == EditState(c, 2)
            && d3 == EditState("", 3) && d4 == EditState("", 3)
  {
  }

  /** Arrow down undoes arrow up, and arrow up undoes arrow down, for a
      buffer that shows the entry under the cursor. */
  lemma RecallRoundTrip(entries: seq<string>, st: EditState)
    requires Shows(entries, st)
    ensures st.position > 0 ==> Down(entries, Up(entries, st)) == st
    ensures st.position < |entries| ==> Up(entries, Down(entries, st)) == st
  {
  }

  /** Down on an empty history keeps the cursor at 0 and empties the buffer. */
  lemma DownOnEmptyHistory(st: EditState)
    requires st.position == 0
    ensures Down([], st) == EditState("", 0)
  {
  }

  /** The global input buffer, its length and the history it pages through. */
  class Editor {
    var current: array<char>
    var inputPos: int
    const history: History

    ghost predicate Valid()
      reads this, current, history, history.items
    {
      && history.Valid()
      && current.Length == MaxInput
      && 0 <= inputPos < MaxInput
      && current[inputPos] == '\0'
    }

    /** The text in the buffer: the characters before the NUL. */
    ghost function Text(): string
      reads this, current
      requires 0 <= inputPos <= current.Length
    {
      current[..inputPos]
    }

    ghost function State(): EditState
      reads this, current, history, history.items
      requires Valid()
    {
      EditState(Text(), history.position)
    }

    constructor (h: History)
      requires h.Valid()
      ensures Valid() && history == h && fresh(current)
      ensures Text() == []
    {
      current := new char[MaxInput](_ => '\0');
      inputPos := 0;
      history := h;
    }

    /** `snprintf(current_input, sizeof current_input, "%s", s)` followed by
        `input_pos = strlen(current_input)`. */
    method Load(s: string)
      requires current.Length == MaxInput
      modifies this`inputPos, current
      ensures 0 <= inputPos < MaxInput && current[inputPos] == '\0'
      ensures Text() == Bounded(s, MaxInput)
    {
      var t := Bounded(s, MaxInput);
      var k := 0;
      while k < |t|
        invariant 0 <= k <= |t|
        invariant current[..k] == t[..k]
      {
        current[k] := t[k];
        k := k + 1;
      }
      current[|t|] := '\0';
      inputPos := |t|;
      assert current[..inputPos] == t;
    }

    method ArrowUp()
      requires Valid()
      modifies this`inputPos, current, history`position
      ensures Valid()
      ensures history.Entries() == old(history.Entries())
      ensures State() == Up(history.Entries(), old(State()))
    {
      if history.position > 0 {
        history.position := history.position - 1;
        Load(history.items[history.position]);
      }
    }

    method ArrowDown()
      requires Valid()
      modifies this`inputPos, current, history`position
      ensures Valid()
      ensures history.Entries() == old(history.Entries())
      ensures State() == Down(history.Entries(), old(State()))
    {
      if history.position < history.count - 1 {
        history.position := history.position + 1;
        Load(history.items[history.position]);
      } else {
        history.position := history.count;
        current[0] := '\0';
        inputPos := 0;
      }
    }

    /** The two bytes after ESC: `[A` is arrow up, `[B` arrow down. */
    method EscapeKeys(a: char, b: char)
      requires Valid()
      modifies this`inputPos, current, history`position
      ensures Valid()
      ensures history.Entries() == old(history.Entries())
      ensures State() == EscapeSequence(history.Entries(), old(State()), a, b)
    {
      if a == '[' {
        if b == 'A' {
          ArrowUp();
        }
        if b == 'B' {
          ArrowDown();
        }
      }
    }

    /** A byte other than newline and ESC: erase, append or ignore. */
    method EditKey(c: char)
      requires Valid()
      modifies this`inputPos, current
      ensures Valid()
      ensures State() == KeyByte(old(State()), c)
    {
      if c == Delete || c == Backspace {
        if inputPos > 0 {
          inputPos := inputPos - 1;
          current[inputPos] := '\0';
        }
      } else if Printable(c) {
        if inputPos < MaxInput - 1 {
          current[inputPos] := c;
          inputPos := inputPos + 1;
          current[inputPos] := '\0';
          assert Text() == old(Text()) + [c];
        }
      }
    }

    /** `read_input`: the buffer starts empty, the cursor where it was. The
        result is the line and the bytes after its newline, or `None` when
        the input runs out first. */
    method ReadInput(input: seq<char>) returns (line: Option<string>, rest: seq<char>)
      requires Valid()
      modifies this`inputPos, current, history`position
      ensures Valid()
      ensures history.Entries() == old(history.Entries())
      ensures var outcome := Run(history.Entries(), EditState("", old(history.position)), input);
              if line.Some? then outcome == Line(line.value, State(), rest)
              else outcome == Starved(State()) && rest == []
    {
      current[0] := '\0';
      inputPos := 0;
      ghost var entries := history.Entries();
      ghost var start := EditState("", history.position);
      var i := 0;
      while i < |input|
        invariant Valid() && history.Entries() == entries
        invariant 0 <= i <= |input|
        invariant Run(entries, State(), input[i..]) == Run(entries, start, input)
      {
        var c := input[i];
        ghost var st := State();
        assert input[i..][0] == c;
        if c == '\n' {
          return Some(current[..inputPos]), input[i + 1..];
        } else if c == Escape {
          if i + 2 >= |input| {
            i := |input|;
          } else {
            var a, b := input[i + 1], input[i + 2];
            assert input[i..][3..] == input[i + 3..];
            EscapeKeys(a, b);
            assert State() == EscapeSequence(entries, st, a, b);
            i := i + 3;
          }
        } else {
          assert input[i..][1..] == input[i + 1..];
          EditKey(c);
          assert State() == KeyByte(st, c);
          i := i + 1;
        }
      }
      return None, [];
    }
  }
}
