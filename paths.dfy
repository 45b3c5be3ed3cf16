/** POSIX path helpers, as `os.path.basename`, `os.path.dirname` and
    `os.path.join` compute them on Linux. */
module Paths {

  /** Everything after the last '/' (all of `p` when it has none). */
  function Basename(p: string): (b: string)
    ensures '/' !in b
    ensures |b| <= |p| && p[|p| - |b|..] == b
    ensures |b| < |p| ==> p[|p| - |b| - 1] == '/'
  {
    if p == [] || p[|p| - 1] == '/' then []
    else
      var b := Basename(p[..|p| - 1]);
      assert p[|p| - |b| - 1..] == p[..|p| - 1][|p| - 1 - |b|..] + [p[|p| - 1]];
      b + [p[|p| - 1]]
  }

  /** Everything up to and including the last '/'. */
  function Head(p: string): (h: string)
    ensures p == h + Basename(p)
  {
    p[..|p| - |Basename(p)|]
  }

  function StripTrailingSlashes(s: string): (r: string)
    ensures |r| <= |s| && r == s[..|r|]
    ensures r == [] || r[|r| - 1] != '/'
    ensures forall i :: |r| <= i < |s| ==> s[i] == '/'
  {
    if s != [] && s[|s| - 1] == '/' then StripTrailingSlashes(s[..|s| - 1]) else s
  }

  /** The directory part: the head without its trailing slashes, unless the
      head consists of slashes only (the root stays as it is). */
  function Dirname(p: string): string {
    var h := Head(p);
    if StripTrailingSlashes(h) != [] then StripTrailingSlashes(h) else h
  }

  /** `os.path.join(d, f)` for two components. */
  function Join(d: string, f: string): string {
    if f != [] && f[0] == '/' then f
    else if d == [] || d[|d| - 1] == '/' then d + f
    else d + "/" + f
  }

  lemma {:induction false} BasenameAfterSlash(x: string, f: string)
    requires x == [] || x[|x| - 1] == '/'
    requires '/' !in f
    ensures Basename(x + f) == f
    decreases |f|
  {
    if f == [] {
      assert x + f == x;
    } else {
      assert (x + f)[..|x + f| - 1] == x + f[..|f| - 1];
      BasenameAfterSlash(x, f[..|f| - 1]);
    }
  }

  /** The path `x + f`, with `x` empty or ending in '/', has head `x`. */
  lemma {:induction false} HeadAfterSlash(x: string, f: string)
    requires x == [] || x[|x| - 1] == '/'
    requires '/' !in f
    ensures Head(x + f) == x
  {
    BasenameAfterSlash(x, f);
    assert (x + f)[..|x + f| - |f|] == x;
  }

  function JoinPrefix(d: string): (x: string)
    ensures x == [] || x[|x| - 1] == '/'
  {
    if d == [] || d[|d| - 1] == '/' then d else d + "/"
  }

  lemma JoinIsPrefixed(d: string, f: string)
    requires f != [] && '/' !in f
    ensures Join(d, f) == JoinPrefix(d) + f
  {
    assert f[0] in f;
  }

  /** A directory entry joined onto its directory has the entry as its base
      name, and the directory, less its trailing slashes, as its directory. */
  lemma JoinEntry(d: string, f: string)
    requires f != [] && '/' !in f
    ensures Basename(Join(d, f)) == f
    ensures Dirname(Join(d, f)) ==
      if StripTrailingSlashes(d) != [] then StripTrailingSlashes(d) else d
  {
    var x := JoinPrefix(d);
    JoinIsPrefixed(d, f);
    BasenameAfterSlash(x, f);
    HeadAfterSlash(x, f);
    if x != d {
      assert x[..|x| - 1] == d;
      assert StripTrailingSlashes(x) == StripTrailingSlashes(d);
    }
  }
}
