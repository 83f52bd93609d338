/**
 * The part of Go's `path` and `strings` packages that the registry relies on:
 * slash-separated paths, split and named exactly as `path.Split`,
 * `path.Base` and `strings.TrimSuffix(s, "/")` do.
 */
module Paths {

  /** Index of the last '/' in `s`, or -1 when there is none (`strings.LastIndex(s, "/")`). */
  function LastSlash(s: string): (i: int)
    ensures -1 <= i < |s|
    ensures i >= 0 ==> s[i] == '/'
    ensures forall j :: i < j < |s| ==> s[j] != '/'
    decreases |s|
  {
    if s == [] then -1
    else if s[|s| - 1] == '/' then |s| - 1
    else LastSlash(s[..|s| - 1])
  }

  /** What follows the last slash is free of slashes. */
  lemma NoSlashAfter(s: string, i: int)
    requires -1 <= i < |s|
    requires forall j :: i < j < |s| ==> s[j] != '/'
    ensures '/' !in s[i + 1..]
  {
  }

  /** `path.Split`: the directory part, up to and including the last slash, and the file part after it. */
  function Split(p: string): (r: (string, string))
    ensures r.0 + r.1 == p
    ensures '/' !in r.1
    ensures r.0 == [] || r.0[|r.0| - 1] == '/'
  {
    var i := LastSlash(p);
    var dir, file := p[..i + 1], p[i + 1..];
    NoSlashAfter(p, i);
    assert dir + file == p;
    assert dir == [] || dir[|dir| - 1] == p[i];
    (dir, file)
  }

  /** `strings.TrimSuffix(s, "/")`: drops one trailing slash, if there is one. */
  function TrimSlash(s: string): string
  {
    if s != [] && s[|s| - 1] == '/' then s[..|s| - 1] else s
  }

  /** `s` without any of its trailing slashes. */
  function TrimTrailingSlashes(s: string): (r: string)
    ensures |r| <= |s| && r == s[..|r|]
    ensures r == [] || r[|r| - 1] != '/'
    ensures forall j :: |r| <= j < |s| ==> s[j] == '/'
    decreases |s|
  {
    if s != [] && s[|s| - 1] == '/' then TrimTrailingSlashes(s[..|s| - 1]) else s
  }

  /**
   * `path.Base`: the last element of the path once trailing slashes are
   * removed; "." for the empty path and "/" for a path of slashes only.
   */
  function Base(p: string): (r: string)
    ensures r != []
    ensures p != [] && TrimTrailingSlashes(p) != [] ==> '/' !in r
  {
    if p == [] then "."
    else
      var t := TrimTrailingSlashes(p);
      if t == [] then "/"
      else
        var i := LastSlash(t);
        NoSlashAfter(t, i);
        t[i + 1..]
  }

  /** A slash-free name appended to a directory comes back out of `Base` and `Split` unchanged. */
  lemma BaseOfChild(dir: string, name: string)
    requires name != [] && '/' !in name
    ensures Base(dir + "/" + name) == name
    ensures Split(dir + "/" + name) == (dir + "/", name)
  {
    var s := dir + "/" + name;
    assert s[|dir|] == '/';
    forall j | |dir| < j < |s| ensures s[j] != '/' {
      assert s[j] == name[j - |dir| - 1];
      assert name[j - |dir| - 1] in name;
    }
    assert LastSlash(s) == |dir|;
    assert s[|s| - 1] == name[|name| - 1] && name[|name| - 1] in name;
    assert TrimTrailingSlashes(s) == s;
    assert s[|dir| + 1..] == name;
    assert s[..|dir| + 1] == dir + "/";
  }

  /** When `Split` finds a non-empty file part, `Base` names the same element. */
  lemma BaseMatchesSplit(p: string)
    requires Split(p).1 != []
    ensures Base(p) == Split(p).1
  {
    var f := Split(p).1;
    assert p == Split(p).0 + f;
    assert p[|p| - 1] == f[|f| - 1] && f[|f| - 1] in f;
    assert TrimTrailingSlashes(p) == p;
  }
}
