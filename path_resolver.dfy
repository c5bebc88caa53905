/** `resolve_path`: home-relative, relative and absolute paths turned into
    one string, then `/./` and `//` removed by textual rewriting. Nothing
    here touches a file system: `..` is kept as text. */
module PathResolver {
  import opened CString

  /** What `resolve_path` learns from the process environment. */
  datatype Env = Env(
    homeVar: Option<string>,  // getenv("HOME")
    passwdHome: string,       // getpwuid(getuid())->pw_dir
    cwd: Option<string>)      // getcwd(), None when it fails

  /** The home directory used for `~`: HOME, else the password entry's. */
  function HomeDir(env: Env): string {
    match env.homeVar
    case Some(h) => h
    case None => env.passwdHome
  }

  const DotSegment: string := "/./"
  const DoubleSlash: string := "//"

  /** The buffer before the collapse loops; `None` for `~x` and for a
      relative path when the working directory cannot be read. */
  function Prefixed(path: string, env: Env): (r: Option<string>)
    ensures r.None? <==>
              || (|path| > 1 && path[0] == '~' && path[1] != '/')
              || ((|path| == 0 || (path[0] != '~' && path[0] != '/')) && env.cwd.None?)
    ensures r.Some? ==>
              var tail := if |path| > 0 && path[0] == '~' then path[1..] else path;
              |tail| <= |r.value| && r.value[|r.value| - |tail|..] == tail
  {
    if |path| > 0 && path[0] == '~' then
      if |path| == 1 || path[1] == '/' then Some(HomeDir(env) + path[1..]) else None
    else if |path| == 0 || path[0] != '/' then
      match env.cwd
      case Some(c) => Some(c + "/" + path)
      case None => None
    else Some(path)
  }

  /** The first loop read left to right: a `/.` that a `/` follows is
      dropped. */
  function DropDotSegments(s: string): (r: string)
    ensures |r| <= |s|
    ensures s != [] ==> r != [] && r[0] == s[0]
    decreases |s|
  {
    if |s| >= 3 && s[0] == '/' && s[1] == '.' && s[2] == '/' then DropDotSegments(s[2..])
    else if s == [] then []
    else [s[0]] + DropDotSegments(s[1..])
  }

  /** The second loop read left to right: every run of `/` becomes one. */
  function SqueezeSlashes(s: string): (r: string)
    ensures |r| <= |s|
    ensures s != [] ==> r != [] && r[0] == s[0]
    decreases |s|
  {
    if |s| >= 2 && s[0] == '/' && s[1] == '/' then SqueezeSlashes(s[1..])
    else if s == [] then []
    else [s[0]] + SqueezeSlashes(s[1..])
  }

  function Collapse(s: string): string {
    SqueezeSlashes(DropDotSegments(s))
  }

  /** The result of `resolve_path`, `None` standing for NULL. */
  function Resolve(path: string, env: Env): (r: Option<string>)
    ensures r.None? <==> Prefixed(path, env).None?
    ensures r.Some? ==> Clean(r.value)
  {
    match Prefixed(path, env)
    case Some(s) => CollapseClean(s); Some(Collapse(s))
    case None => None
  }

  predicate Clean(s: string) {
    !Contains(s, DotSegment) && !Contains(s, DoubleSlash)
  }

  lemma OccursAtShift(s: string, pat: string, j: nat)
    requires |s| > 0
    ensures OccursAt(s[1..], pat, j) <==> OccursAt(s, pat, j + 1)
  {
    if OccursAt(s, pat, j + 1) {
      forall k | 0 <= k < |pat| ensures s[1..][j + k] == pat[k] {
        assert s[j + 1 + k] == pat[k];
      }
    }
  }

  lemma NotContainsTail(s: string, pat: string)
    requires |s| > 0 && !Contains(s, pat)
    ensures !Contains(s[1..], pat)
  {
    forall j: nat | j <= |s[1..]| ensures !OccursAt(s[1..], pat, j) {
      OccursAtShift(s, pat, j);
    }
  }

  lemma DotSegmentAt(s: string, i: nat)
    ensures OccursAt(s, DotSegment, i) <==>
              i + 3 <= |s| && s[i] == '/' && s[i + 1] == '.' && s[i + 2] == '/'
  {
    if OccursAt(s, DotSegment, i) {
      assert s[i + 0] == DotSegment[0] && s[i + 1] == DotSegment[1] && s[i + 2] == DotSegment[2];
    }
  }

  lemma DoubleSlashAt(s: string, i: nat)
    ensures OccursAt(s, DoubleSlash, i) <==> i + 2 <= |s| && s[i] == '/' && s[i + 1] == '/'
  {
    if OccursAt(s, DoubleSlash, i) {
      assert s[i + 0] == DoubleSlash[0] && s[i + 1] == DoubleSlash[1];
    }
  }

  /** Removing the first `/./` by `memmove(p, p + 2, ...)` does not change
      what the first loop ends with. */
  lemma {:induction false} DropFirstDotSegment(s: string, p: nat)
    requires OccursAt(s, DotSegment, p)
    requires forall j: nat :: j < p ==> !OccursAt(s, DotSegment, j)
    ensures DropDotSegments(s[..p] + s[p + 2..]) == DropDotSegments(s)
    decreases p
  {
    var t := s[..p] + s[p + 2..];
    DotSegmentAt(s, p);
    if p == 0 {
      assert t == s[2..];
    } else {
      assert !OccursAt(s, DotSegment, 0);
      DotSegmentAt(s, 0);
      assert !(|t| >= 3 && t[0] == '/' && t[1] == '.' && t[2] == '/');
      forall j: nat | j < p - 1 ensures !OccursAt(s[1..], DotSegment, j) {
        OccursAtShift(s, DotSegment, j);
      }
      OccursAtShift(s, DotSegment, p - 1);
      DropFirstDotSegment(s[1..], p - 1);
      assert t[1..] == s[1..][..p - 1] + s[1..][p - 1 + 2..];
    }
  }

  /** Removing one `/` of any `//` does not change what the second loop
      ends with. */
  lemma {:induction false} DropOneSlash(s: string, p: nat)
    requires p + 1 < |s| && s[p] == '/' && s[p + 1] == '/'
    ensures SqueezeSlashes(s[..p] + s[p + 1..]) == SqueezeSlashes(s)
    decreases p
  {
    var t := s[..p] + s[p + 1..];
    if p == 0 {
      assert t == s[1..];
    } else {
      DropOneSlash(s[1..], p - 1);
      assert t[1..] == s[1..][..p - 1] + s[1..][p - 1 + 1..];
      assert t[0] == s[0];
      if p == 1 {
        assert t[1] == '/';
      } else {
        assert t[1] == s[1];
      }
    }
  }

  /** Text with no `/./` is a fixed point of the first loop. */
  lemma {:induction false} DropDotSegmentsOfClean(s: string)
    requires !Contains(s, DotSegment)
    ensures DropDotSegments(s) == s
    decreases |s|
  {
    if s != [] {
      assert !OccursAt(s, DotSegment, 0);
      DotSegmentAt(s, 0);
      NotContainsTail(s, DotSegment);
      DropDotSegmentsOfClean(s[1..]);
      assert s == [s[0]] + s[1..];
    }
  }

  /** Text with no `//` is a fixed point of the second loop. */
  lemma {:induction false} SqueezeSlashesOfClean(s: string)
    requires !Contains(s, DoubleSlash)
    ensures SqueezeSlashes(s) == s
    decreases |s|
  {
    if s != [] {
      assert !OccursAt(s, DoubleSlash, 0);
      DoubleSlashAt(s, 0);
      NotContainsTail(s, DoubleSlash);
      SqueezeSlashesOfClean(s[1..]);
      assert s == [s[0]] + s[1..];
    }
  }

  /** A string with no `pat` at its start and none in its tail has none. */
  lemma ContainsCons(s: string, pat: string)
    requires |s| > 0 && |pat| > 0
    requires !OccursAt(s, pat, 0) && !Contains(s[1..], pat)
    ensures !Contains(s, pat)
  {
    forall j: nat | j <= |s| ensures !OccursAt(s, pat, j) {
      if j > 0 {
        OccursAtShift(s, pat, j - 1);
      }
    }
  }

  /** The first loop leaves no `/./`. */
  lemma {:induction false} DropDotSegmentsClean(s: string)
    ensures !Contains(DropDotSegments(s), DotSegment)
    decreases |s|
  {
    var r := DropDotSegments(s);
    if |s| >= 3 && s[0] == '/' && s[1] == '.' && s[2] == '/' {
      DropDotSegmentsClean(s[2..]);
    } else if s == [] {
      assert !OccursAt(r, DotSegment, 0);
    } else {
      var u := s[1..];
      DropDotSegmentsClean(u);
      assert r == [s[0]] + DropDotSegments(u) && r[1..] == DropDotSegments(u);
      // r starts with s[0], s[1] and, when s[1] is '.', s[2]; so a `/./`
      // at its start would be one at the start of s
      DotSegmentAt(s, 0);
      DotSegmentAt(r, 0);
      if u != [] {
        if |u| >= 2 && u[0] == '.' {
          assert DropDotSegments(u) == [u[0]] + DropDotSegments(u[1..]);
        }
      }
      assert !OccursAt(r, DotSegment, 0);
      ContainsCons(r, DotSegment);
    }
  }

  /** The second loop leaves no `//`, and adds no `/./`. */
  lemma {:induction false} SqueezeSlashesClean(s: string)
    ensures !Contains(SqueezeSlashes(s), DoubleSlash)
    ensures !Contains(s, DotSegment) ==> !Contains(SqueezeSlashes(s), DotSegment)
    decreases |s|
  {
    var r := SqueezeSlashes(s);
    if |s| >= 2 && s[0] == '/' && s[1] == '/' {
      if !Contains(s, DotSegment) {
        NotContainsTail(s, DotSegment);
      }
      SqueezeSlashesClean(s[1..]);
    } else if s == [] {
      assert !OccursAt(r, DotSegment, 0) && !OccursAt(r, DoubleSlash, 0);
    } else {
      var u := s[1..];
      if !Contains(s, DotSegment) {
        NotContainsTail(s, DotSegment);
      }
      SqueezeSlashesClean(u);
      assert r == [s[0]] + SqueezeSlashes(u) && r[1..] == SqueezeSlashes(u);
      DoubleSlashAt(r, 0);
      DotSegmentAt(r, 0);
      DotSegmentAt(s, 0);
      if u != [] {
        if |u| >= 2 && u[0] == '.' {
          assert SqueezeSlashes(u) == [u[0]] + SqueezeSlashes(u[1..]);
        }
      }
      assert !OccursAt(r, DoubleSlash, 0);
      ContainsCons(r, DoubleSlash);
      if !Contains(s, DotSegment) {
        assert !OccursAt(s, DotSegment, 0);
        assert !OccursAt(r, DotSegment, 0);
        ContainsCons(r, DotSegment);
      }
    }
  }

  /** After both loops the text has no `/./` and no `//`. */
  lemma CollapseClean(s: string)
    ensures Clean(Collapse(s))
  {
    DropDotSegmentsClean(s);
    SqueezeSlashesClean(DropDotSegments(s));
  }

  /** Clean text is left as it is, so collapsing twice is collapsing once. */
  lemma CollapseOfClean(s: string)
    requires Clean(s)
    ensures Collapse(s) == s
  {
    DropDotSegmentsOfClean(s);
    SqueezeSlashesOfClean(s);
  }

  lemma CollapseIdempotent(s: string)
    ensures Collapse(Collapse(s)) == Collapse(s)
  {
    CollapseClean(s);
    CollapseOfClean(Collapse(s));
  }

  /** `resolve_path` as the C code runs it: build the buffer, then the two
      `strstr`/`memmove` loops. */
  method ResolvePath(path: string, env: Env) returns (r: Option<string>)
    ensures r == Resolve(path, env)
    ensures r.Some? ==> Clean(r.value)
  {
    var buf: string;
    if |path| > 0 && path[0] == '~' {
      var home := HomeDir(env);
      if |path| == 1 || path[1] == '/' {
        buf := home + path[1..];
      } else {
        return None;
      }
    } else if |path| == 0 || path[0] != '/' {
      if env.cwd.None? {
        return None;
      }
      buf := env.cwd.value + "/" + path;
    } else {
      buf := path;
    }
    ghost var prefixed := buf;
    var p := Find(buf, DotSegment);
    while p.Some?
      invariant p == Find(buf, DotSegment)
      invariant DropDotSegments(buf) == DropDotSegments(prefixed)
      decreases |buf|
    {
      DropFirstDotSegment(buf, p.value);
      buf := buf[..p.value] + buf[p.value + 2..];
      p := Find(buf, DotSegment);
    }
    DropDotSegmentsOfClean(buf);
    ghost var dropped := buf;
    p := Find(buf, DoubleSlash);
    while p.Some?
      invariant p == Find(buf, DoubleSlash)
      invariant SqueezeSlashes(buf) == SqueezeSlashes(dropped)
      decreases |buf|
    {
      DoubleSlashAt(buf, p.value);
      DropOneSlash(buf, p.value);
      buf := buf[..p.value] + buf[p.value + 1..];
      p := Find(buf, DoubleSlash);
    }
    SqueezeSlashesOfClean(buf);
    CollapseClean(prefixed);
    return Some(buf);
  }

  /** `~` and `~/rest` expand to the home directory followed by `rest`;
      `~x` is refused. */
  lemma ResolveTilde(path: string, env: Env)
    requires |path| > 0 && path[0] == '~'
    ensures (|path| == 1 || path[1] == '/') ==>
              Resolve(path, env) == Some(Collapse(HomeDir(env) + path[1..]))
    ensures |path| > 1 && path[1] != '/' ==> Resolve(path, env) == None
  {
  }

  /** A relative path is appended to the working directory with a `/`. */
  lemma ResolveRelative(path: string, env: Env)
    requires |path| == 0 || (path[0] != '/' && path[0] != '~')
    ensures env.cwd.None? ==> Resolve(path, env) == None
    ensures env.cwd.Some? ==> Resolve(path, env) == Some(Collapse(env.cwd.value + "/" + path))
  {
  }

  /** An absolute path with no `/./` and no `//` is returned as given: in
      particular its `..` segments are not interpreted. */
  lemma ResolveAbsolute(path: string, env: Env)
    requires |path| > 0 && path[0] == '/'
    ensures Resolve(path, env) == Some(Collapse(path))
    ensures Clean(path) ==> Resolve(path, env) == Some(path)
  {
    if Clean(path) {
      CollapseOfClean(path);
    }
  }

  /** A resolved absolute path resolves to itself. */
  lemma ResolveFixedPoint(path: string, env: Env)
    requires Resolve(path, env).Some?
    requires var r := Resolve(path, env).value; |r| > 0 && r[0] == '/'
    ensures Resolve(Resolve(path, env).value, env) == Resolve(path, env)
  {
    var s := Prefixed(path, env).value;
    CollapseClean(s);
    ResolveAbsolute(Collapse(s), env);
  }

  /** `..` is kept: `/a/../b` resolves to itself. */
  lemma DotDotKept(env: Env)
    ensures Resolve("/a/../b", env) == Some("/a/../b")
  {
    var s := "/a/../b";
    forall j: nat | j <= |s| ensures !OccursAt(s, DotSegment, j) && !OccursAt(s, DoubleSlash, j) {
      DotSegmentAt(s, j);
      DoubleSlashAt(s, j);
    }
    ResolveAbsolute(s, env);
  }
}
