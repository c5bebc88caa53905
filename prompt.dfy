/** The string logic of `print_prompt`: the user name, the host name cut at
    its first dot, and the working directory with HOME shortened to `~`. */
module Prompt {
  import opened CString

  /** The directory shown: when HOME is a textual prefix of `cwd` it is
      replaced by `~`, whether or not the match ends at a `/`. */
  function ShortPath(cwd: string, home: Option<string>): (r: string)
    ensures home.None? ==> r == cwd
    ensures home.Some? && !IsPrefix(home.value, cwd) ==> r == cwd
    ensures r != cwd ==> home.Some? && r != [] && r[0] == '~' && cwd == home.value + r[1..]
  {
    if home.Some? && IsPrefix(home.value, cwd) then "~" + cwd[|home.value|..] else cwd
  }

  /** Reading a shown directory back: a leading `~` stands for HOME. */
  function ExpandTilde(shown: string, home: Option<string>): string {
    if home.Some? && |shown| > 0 && shown[0] == '~' then home.value + shown[1..] else shown
  }

  /** Shortening loses nothing: the shown directory expands back to `cwd`
      (which, coming from `getcwd` or being "?", never starts with `~`). */
  lemma ShortPathRoundTrip(cwd: string, home: Option<string>)
    requires |cwd| == 0 || cwd[0] != '~'
    ensures ExpandTilde(ShortPath(cwd, home), home) == cwd
  {
    if home.Some? && IsPrefix(home.value, cwd) {
      var shown := "~" + cwd[|home.value|..];
      assert shown[1..] == cwd[|home.value|..];
      assert home.value + cwd[|home.value|..] == cwd[..|home.value|] + cwd[|home.value|..];
    }
  }

  /** A working directory that starts with HOME is shown as `~` followed by
      the rest: HOME itself as `~`, `HOME/docs` as `~/docs`. The prefix test
      is textual, so a sibling whose name extends HOME's is shortened too. */
  lemma ShortPathUnderHome(home: string, suffix: string)
    ensures ShortPath(home + suffix, Some(home)) == "~" + suffix
    ensures ShortPath(home, Some(home)) == "~"
    ensures ShortPath("/home/userX", Some("/home/user")) == "~X"
  {
    assert (home + suffix)[..|home|] == home && (home + suffix)[|home|..] == suffix;
    var h, c := "/home/user", "/home/userX";
    assert c == h + "X" && c[..|h|] == h && c[|h|..] == "X";
  }

  /** `strchr(hostname, '.')` and `*dot = '\0'`: the host name up to its
      first dot. */
  function HostLabel(host: string): (r: string)
    ensures IsPrefix(r, host)
    ensures forall k :: 0 <= k < |r| ==> r[k] != '.'
    ensures |r| < |host| ==> host[|r|] == '.'
  {
    if host == [] || host[0] == '.' then [] else [host[0]] + HostLabel(host[1..])
  }

  /** What the prompt shows for a name lookup: "unknown" when it failed. */
  function Shown(name: Option<string>): string {
    match name
    case Some(n) => n
    case None => "unknown"
  }

  /** The prompt without its colour codes: `user@host:dir> `. */
  function PromptText(user: Option<string>, host: Option<string>, cwd: string, home: Option<string>): (r: string)
    ensures |r| >= 2 && r[|r| - 2..] == "> "
    ensures IsPrefix(Shown(user) + "@", r)
  {
    var hostShown := match host case Some(h) => HostLabel(h) case None => "unknown";
    Shown(user) + "@" + hostShown + ":" + ShortPath(cwd, home) + "> "
  }

  /** The prompt ends with the shortened directory and `> `, and a failed
      host lookup shows "unknown". */
  lemma PromptLayout(user: Option<string>, host: Option<string>, cwd: string, home: Option<string>)
    ensures var p := PromptText(user, host, cwd, home);
            var tail := ShortPath(cwd, home) + "> ";
            |p| >= |tail| && p[|p| - |tail|..] == tail
    ensures host.None? ==>
              PromptText(user, host, cwd, home) == Shown(user) + "@unknown:" + ShortPath(cwd, home) + "> "
  {
    var hostShown := match host case Some(h) => HostLabel(h) case None => "unknown";
    var dir := ShortPath(cwd, home);
    var head := Shown(user) + "@" + hostShown + ":";
    assert PromptText(user, host, cwd, home) == head + dir + "> ";
    Concat3(head, dir, "> ");
    if host.None? {
      Concat3(Shown(user), "@", "unknown");
      assert "@" + "unknown" + ":" == "@unknown:";
      assert head == Shown(user) + "@unknown:";
    }
  }

  lemma Concat3(a: string, b: string, c: string)
    ensures a + b + c == a + (b + c)
    ensures (a + (b + c))[|a|..] == b + c
  {
  }
}
