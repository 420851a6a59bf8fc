/**
 * The parts of Node's `path` module the hooks and scripts use, on paths that are
 * already in normal form: `join` of two segments, `dirname`, `basename`, and
 * `lastIndexOf` on a character.
 */
module Paths {
  import opened Text

  /** `s.lastIndexOf(c)`: the last index holding `c`, or -1. */
  function LastIndexOf(s: string, c: char): (i: int)
    ensures -1 <= i < |s|
    ensures i >= 0 ==> s[i] == c && c !in s[i + 1..]
    ensures i == -1 ==> c !in s
    decreases |s|
  {
    if s == [] then -1
    else if s[|s| - 1] == c then |s| - 1
    else
      var i := LastIndexOf(s[..|s| - 1], c);
      assert i >= 0 ==> s[i + 1..] == s[..|s| - 1][i + 1..] + [s[|s| - 1]];
      i
  }

  /** `s.indexOf(c)`: the first index holding `c`, or -1. */
  function IndexOf(s: string, c: char): (i: int)
    ensures -1 <= i < |s|
    ensures i >= 0 ==> s[i] == c && c !in s[..i]
    ensures i == -1 ==> c !in s
    decreases |s|
  {
    if s == [] then -1
    else if s[0] == c then 0
    else
      var i := IndexOf(s[1..], c);
      assert i >= 0 ==> s[..i + 1] == [s[0]] + s[1..][..i];
      if i < 0 then -1 else i + 1
  }

  /**
   * `path.join(a, b)`: an empty or `.` directory contributes nothing, a
   * directory ending in `/` is not given a second one, an empty name keeps the
   * directory (and two empty segments give `.`).
   */
  function Join(a: string, b: string): (r: string)
    ensures b != [] ==> EndsWith(r, b)
    ensures a != [] && a != "." ==> a <= r
  {
    if b == [] then (if a == [] then "." else a)
    else if a == [] || a == "." then b
    else if a[|a| - 1] == '/' then a + b
    else a + "/" + b
  }

  /** `path.basename(p)` for a path that does not end in `/`: what follows the last `/`. */
  function Basename(p: string): (r: string)
    ensures '/' !in r
    ensures |r| <= |p| && r == p[|p| - |r|..]
    ensures '/' !in p ==> r == p
  {
    p[LastIndexOf(p, '/') + 1..]
  }

  /**
   * `path.dirname(p)` for a path that does not end in `/`: `.` without a slash,
   * `/` for a file at the root, otherwise everything before the last `/`.
   */
  function Dirname(p: string): (r: string)
    ensures r != []
    ensures '/' !in p ==> r == "."
    ensures '/' in p && LastIndexOf(p, '/') == 0 ==> r == "/"
    ensures '/' in p && LastIndexOf(p, '/') > 0 ==> r == p[..LastIndexOf(p, '/')]
  {
    var i := LastIndexOf(p, '/');
    if i < 0 then "." else if i == 0 then "/" else p[..i]
  }

  /** `p` has `//` ending at index `k`. */
  predicate DoubledSlashAt(p: string, k: nat)
    requires 0 < k < |p|
  {
    p[k - 1] == '/' && p[k] == '/'
  }

  /** Splitting at a single `/` and joining again gives the path back. */
  lemma JoinAtSlash(p: string, i: nat)
    requires 0 < i < |p| - 1 && p[i] == '/' && p[i - 1] != '/' && p[..i] != "."
    ensures Join(p[..i], p[i + 1..]) == p
  {
    assert p == p[..i] + "/" + p[i + 1..];
  }

  /** A path in normal form: no doubled `/` and no leading `./`. */
  predicate NormalPath(p: string)
  {
    (forall k | 0 < k < |p| :: !DoubledSlashAt(p, k)) && !("./" <= p)
  }

  /** The directory before a path's last `/`, when that is not the first character, joins back. */
  lemma JoinAtLastSlash(p: string, i: nat)
    requires p != [] && NormalPath(p) && p[|p| - 1] != '/'
    requires 0 < i < |p| && i == LastIndexOf(p, '/')
    ensures Join(Dirname(p), Basename(p)) == p
  {
    assert !DoubledSlashAt(p, i);
    assert p[..i] != "." by {
      if |p[..i]| == 1 { assert p[..2] == p[..i] + "/"; }
    }
    JoinAtSlash(p, i);
  }

  /** Joining a path's directory and its base name gives the path back, for a path in normal form. */
  lemma JoinDirnameBasename(p: string)
    requires p != [] && p[|p| - 1] != '/' && NormalPath(p)
    ensures Join(Dirname(p), Basename(p)) == p
  {
    var i := LastIndexOf(p, '/');
    if i > 0 {
      JoinAtLastSlash(p, i);
    } else if i == 0 {
      JoinAtRoot(p);
    }
  }

  /** A path whose only `/` is its first character joins back from `/` and its name. */
  lemma JoinAtRoot(p: string)
    requires p != [] && p[|p| - 1] != '/' && LastIndexOf(p, '/') == 0
    ensures Join(Dirname(p), Basename(p)) == p
  {
    var d, b := Dirname(p), Basename(p);
    assert d == ['/'] && d[|d| - 1] == '/';
    assert b == p[1..] && b != [];
    assert Join(d, b) == d + b;
    assert p == d + b;
  }

  /** The base name of a joined path is the name that was joined. */
  lemma BasenameOfJoin(a: string, b: string)
    requires b != [] && '/' !in b
    ensures Basename(Join(a, b)) == b
  {
    var r := Join(a, b);
    var n := |r| - |b|;
    assert r == r[..n] + b;
    forall k | n <= k < |r| ensures r[k] != '/' {
      assert r[k] == b[k - n];
    }
    var i := LastIndexOf(r, '/');
    assert i < n;
    if a != [] && a != "." {
      assert r[n - 1] == '/';
      forall k | i < k < |r| ensures r[k] != '/' {
        assert r[k] == r[i + 1..][k - i - 1];
      }
      assert i == n - 1;
    } else {
      assert r == b;
    }
  }
}
