/** The command history: at most `HistorySize` lines, oldest first, with a
    recall cursor `position` ranging over `[0, count]`, where `count` is the
    blank slot past the newest entry. */
module HistoryStore {

  const HistorySize: nat := 100

  /** What the store keeps true of its entries: bounded, none empty, and
      no entry equal to the one just before it. */
  predicate WellFormed(entries: seq<string>) {
    |entries| <= HistorySize && Storable(entries)
  }

  /** Lines that `history_add` accepts one after another: none empty, and
      none equal to the one just before it. */
  predicate Storable(lines: seq<string>) {
    && (forall i :: 0 <= i < |lines| ==> lines[i] != "")
    && (forall i :: 0 < i < |lines| ==> lines[i - 1] != lines[i])
  }

  /** `history_add` ignores an empty line and a repeat of the newest entry. */
  predicate Rejects(entries: seq<string>, line: string) {
    line == "" || (|entries| > 0 && entries[|entries| - 1] == line)
  }

  /** The entries after `history_add(line)`. */
  function Added(entries: seq<string>, line: string): (r: seq<string>)
    ensures |entries| <= HistorySize ==> |r| <= HistorySize
    ensures line == "" ==> r == entries
    ensures line != "" ==> |r| > 0 && r[|r| - 1] == line
  {
    if Rejects(entries, line) then entries
    else if |entries| < HistorySize then entries + [line]
    else entries[1..] + [line]
  }

  /** The entries after adding `lines` one after another. */
  function AddedAll(entries: seq<string>, lines: seq<string>): seq<string>
    decreases |lines|
  {
    if lines == [] then entries
    else Added(AddedAll(entries, lines[..|lines| - 1]), lines[|lines| - 1])
  }

  /** What the `history` built-in prints: each entry with its 1-based number. */
  function Listing(entries: seq<string>): seq<(int, string)> {
    seq(|entries|, i requires 0 <= i < |entries| => (i + 1, entries[i]))
  }

  /** A rejected line leaves the entries alone; an accepted one becomes the
      newest entry, appended below capacity and evicting the oldest at it. */
  lemma AddedCases(entries: seq<string>, line: string)
    requires |entries| <= HistorySize
    ensures Rejects(entries, line) ==> Added(entries, line) == entries
    ensures !Rejects(entries, line) && |entries| < HistorySize ==>
              Added(entries, line) == entries + [line]
    ensures !Rejects(entries, line) && |entries| == HistorySize ==>
              Added(entries, line) == entries[1..] + [line]
    ensures !Rejects(entries, line) ==>
              var r := Added(entries, line);
              |r| == (if |entries| < HistorySize then |entries| + 1 else HistorySize)
              && r[|r| - 1] == line
  {
  }

  /** Adding keeps the store well formed. */
  lemma AddedWellFormed(entries: seq<string>, line: string)
    requires WellFormed(entries)
    ensures WellFormed(Added(entries, line))
  {
    if !Rejects(entries, line) && |entries| == HistorySize {
      var r := entries[1..] + [line];
      forall i | 0 < i < |r| ensures r[i - 1] != r[i] {
        if i < |r| - 1 {
          assert r[i - 1] == entries[i] && r[i] == entries[i + 1];
        }
      }
    }
  }

  /** Adding the same line twice in a row stores it once. */
  lemma AddedTwice(entries: seq<string>, line: string)
    ensures Added(Added(entries, line), line) == Added(entries, line)
  {
  }

  /** Adding a run of non-empty lines, no two neighbours equal, to an empty
      store keeps exactly the newest `HistorySize` of them: eviction is
      strict FIFO. */
  lemma {:induction false} AddedAllKeepsNewest(lines: seq<string>)
    requires Storable(lines)
    ensures |lines| <= HistorySize ==> AddedAll([], lines) == lines
    ensures |lines| > HistorySize ==> AddedAll([], lines) == lines[|lines| - HistorySize..]
  {
    if lines != [] {
      var n := |lines|;
      var init := lines[..n - 1];
      StorableInit(lines);
      AddedAllKeepsNewest(init);
      var a := if n - 1 <= HistorySize then 0 else n - 1 - HistorySize;
      assert init[a..] == lines[a..n - 1];
      assert AddedAll([], init) == lines[a..n - 1];
      assert AddedAll([], lines) == Added(AddedAll([], init), lines[n - 1]);
      AddedWindow(lines, a);
    }
  }

  lemma StorableInit(lines: seq<string>)
    requires Storable(lines) && lines != []
    ensures Storable(lines[..|lines| - 1])
    ensures lines[|lines| - 1] != ""
    ensures |lines| >= 2 ==> lines[|lines| - 2] != lines[|lines| - 1]
  {
    var init := lines[..|lines| - 1];
    assert forall i :: 0 <= i < |init| ==> init[i] == lines[i];
  }

  /** One step of the run above: adding the next line to a window of the
      lines before it either grows the window or slides it by one. */
  lemma AddedWindow(s: seq<string>, a: nat)
    requires a < |s| && |s| - 1 - a <= HistorySize
    requires s[|s| - 1] != ""
    requires a + 1 < |s| ==> s[|s| - 2] != s[|s| - 1]
    ensures |s| - 1 - a < HistorySize ==> Added(s[a..|s| - 1], s[|s| - 1]) == s[a..]
    ensures |s| - 1 - a == HistorySize ==> Added(s[a..|s| - 1], s[|s| - 1]) == s[a + 1..]
  {
    var w := s[a..|s| - 1];
    if a + 1 < |s| {
      assert w[|w| - 1] == s[|s| - 2];
    }
    assert !Rejects(w, s[|s| - 1]);
    if |w| < HistorySize {
      assert w + [s[|s| - 1]] == s[a..];
    } else {
      SlideWindow(s, a);
    }
  }

  /** Dropping the first of the window `s[a..|s| - 1]` and appending the
      last element of `s` moves the window one place to the right. */
  lemma SlideWindow(s: seq<string>, a: nat)
    requires a + 1 < |s|
    ensures s[a..|s| - 1][1..] + [s[|s| - 1]] == s[a + 1..]
  {
    var w := s[a..|s| - 1][1..] + [s[|s| - 1]];
    assert |w| == |s[a + 1..]|;
    forall k | 0 <= k < |w| ensures w[k] == s[a + 1 + k] {
      if k < |w| - 1 {
        assert w[k] == s[a..|s| - 1][k + 1];
      }
    }
  }

  class History {
    var items: array<string>
    var count: int
    var position: int

    ghost predicate Valid()
      reads this, items
    {
      && items.Length == HistorySize
      && 0 <= position <= count <= HistorySize
      && WellFormed(items[..count])
    }

    /** The stored lines, oldest first. */
    ghost function Entries(): seq<string>
      reads this, items
      requires Valid()
    {
      items[..count]
    }

    /** `cmd_history = {.count = 0, .position = 0}` */
    constructor ()
      ensures Valid() && fresh(items)
      ensures Entries() == [] && position == 0
    {
      items := new string[HistorySize](_ => "");
      count, position := 0, 0;
    }

    /** `history_add`: a rejected line changes nothing, the cursor included;
        an accepted one is stored and the cursor moves to the blank slot. */
    method Add(line: string)
      requires Valid()
      modifies this`count, this`position, items
      ensures Valid()
      ensures Entries() == Added(old(Entries()), line)
      ensures Rejects(old(Entries()), line) ==> position == old(position)
      ensures !Rejects(old(Entries()), line) ==> position == count
    {
      ghost var before := Entries();
      AddedWellFormed(before, line);
      if line == "" {
        return;
      }
      if count > 0 && items[count - 1] == line {
        return;
      }
      if count < HistorySize {
        items[count] := line;
        count := count + 1;
        assert items[..count] == before + [line];
      } else {
        ShiftDown();
        items[HistorySize - 1] := line;
        assert items[..count] == before[1..] + [line];
      }
      position := count;
    }

    /** The `memmove` that moves items 1..99 down to 0..98 when the store
        is full. */
    method ShiftDown()
      requires items.Length == HistorySize
      modifies items
      ensures forall j :: 0 <= j < HistorySize - 1 ==> items[j] == old(items[j + 1])
      ensures items[HistorySize - 1] == old(items[HistorySize - 1])
    {
      var k := 0;
      while k < HistorySize - 1
        invariant 0 <= k <= HistorySize - 1
        invariant forall j :: 0 <= j < k ==> items[j] == old(items[j + 1])
        invariant forall j :: k <= j < HistorySize ==> items[j] == old(items[j])
      {
        items[k] := items[k + 1];
        k := k + 1;
      }
    }

    /** The loop of the `history` built-in: every entry, numbered from 1. */
    method List() returns (lines: seq<(int, string)>)
      requires Valid()
      ensures lines == Listing(Entries())
    {
      lines := [];
      var i := 0;
      while i < count
        invariant 0 <= i <= count
        invariant lines == Listing(items[..i])
      {
        lines := lines + [(i + 1, items[i])];
        i := i + 1;
      }
    }
  }
}
