/** Path and string helpers shared by both scripts: Python's `str.endswith`
    and POSIX `os.path.join` for two components. */
module PathUtil {

  /** A file-system path, as a Python `str`. */
  type Path = string

  /** `s.endswith(suffix)` */
  predicate EndsWith(s: string, suffix: string)
  {
    |suffix| <= |s| && s[|s| - |suffix|..] == suffix
  }

  /** A path component that `os.path.join` appends rather than restarting from. */
  predicate Relative(b: Path)
  {
    b == [] || b[0] != '/'
  }

  /** A single path component, as the names `os.listdir` returns: no
      separator anywhere in it. */
  predicate Plain(n: string)
  {
    n == [] || (n[0] != '/' && Plain(n[1..]))
  }

  /** No position of a plain name holds a separator. */
  lemma {:induction false} PlainAt(n: string, k: nat)
    requires Plain(n) && k < |n|
    ensures n[k] != '/'
  {
    if k > 0 {
      PlainAt(n[1..], k - 1);
    }
  }

  /** A plain name never restarts a join. */
  lemma PlainRelative(n: string)
    requires Plain(n)
    ensures Relative(n)
  {
  }

  /** What `os.path.join(a, b)` keeps of `a` when `b` is relative: `a` itself,
      followed by a separator unless `a` is empty or already ends in one. */
  function DirPrefix(a: Path): Path
  {
    if a == [] || a[|a| - 1] == '/' then a else a + "/"
  }

  /** The prefix is empty or ends in a separator. */
  lemma DirPrefixEnds(a: Path)
    ensures DirPrefix(a) == [] || DirPrefix(a)[|DirPrefix(a)| - 1] == '/'
  {
  }

  /** POSIX `os.path.join(a, b)`: an absolute `b` replaces `a`; otherwise `b`
      is appended after a separator that is added only when needed. */
  function Join(a: Path, b: Path): Path
  {
    if !Relative(b) then b else DirPrefix(a) + b
  }

  /** Joining a relative name under a directory keeps the directory's prefix. */
  lemma JoinRelative(a: Path, b: Path)
    requires Relative(b)
    ensures Join(a, b) == DirPrefix(a) + b
  {
  }

  /** A relative name joined under a directory keeps both parts: the result
      starts with the directory, ends with the name and adds at most one
      separator between them. An absolute name replaces the directory. */
  lemma JoinKeepsParts(a: Path, b: Path)
    ensures Relative(b) ==>
              && |a| + |b| <= |Join(a, b)| <= |a| + 1 + |b|
              && Join(a, b)[..|a|] == a
              && EndsWith(Join(a, b), b)
    ensures Relative(b) && |Join(a, b)| == |a| + 1 + |b| ==> Join(a, b)[|a|] == '/'
    ensures Relative(b) && |Join(a, b)| == |a| + |b| ==> a == [] || a[|a| - 1] == '/'
    ensures !Relative(b) ==> Join(a, b) == b
  {
    if Relative(b) {
      DirPrefixEnds(a);
      var j := Join(a, b);
      assert j == DirPrefix(a) + b;
      assert j[..|a|] == DirPrefix(a)[..|a|];
      assert j[|j| - |b|..] == b;
    }
  }

  /** A directory created by joining a plain, non-empty component `d` under `a`
      is itself prefixed by `a`'s prefix followed by `d` and one separator. */
  lemma DirPrefixOfJoin(a: Path, d: Path)
    requires d != [] && d[0] != '/' && d[|d| - 1] != '/'
    ensures DirPrefix(Join(a, d)) == DirPrefix(a) + (d + "/")
  {
    var j := DirPrefix(a) + d;
    assert Join(a, d) == j;
    assert j[|j| - 1] == d[|d| - 1];
    assert j + "/" == DirPrefix(a) + (d + "/");
  }

  /** Two strings that share a prefix `p` and then differ at some position
      `k` are different. */
  lemma DifferAfterPrefix(p: string, x: string, y: string, k: nat)
    requires k < |x| && k < |y| && x[k] != y[k]
    ensures p + x != p + y
  {
    assert (p + x)[|p| + k] == x[k];
    assert (p + y)[|p| + k] == y[k];
  }

  /** A path made of a directory prefix and a plain name splits only one way:
      the name is everything after the last separator. */
  lemma SplitAtLastSeparator(p: Path, n: string, q: Path, m: string)
    requires p == [] || p[|p| - 1] == '/'
    requires q == [] || q[|q| - 1] == '/'
    requires Plain(n) && Plain(m) && p + n == q + m
    ensures p == q && n == m
  {
    var x := p + n;
    if |p| < |q| {
      assert x[|q| - 1] == n[|q| - 1 - |p|];
      PlainAt(n, |q| - 1 - |p|);
    }
    if |q| < |p| {
      assert x[|p| - 1] == m[|p| - 1 - |q|];
      PlainAt(m, |p| - 1 - |q|);
    }
    assert |p| == |q|;
    assert p == x[..|p|] && q == x[..|q|];
    assert n == x[|p|..] && m == x[|q|..];
  }

  /** Files named plainly in two different directories are different paths. */
  lemma DistinctDirs(p: Path, n: string, q: Path, m: string)
    requires p == [] || p[|p| - 1] == '/'
    requires q == [] || q[|q| - 1] == '/'
    requires Plain(n) && Plain(m) && p != q
    ensures p + n != q + m
  {
    if p + n == q + m {
      SplitAtLastSeparator(p, n, q, m);
    }
  }

  /** Two strings differ, compared character by character from the start:
      one ends before the other or some position holds different characters.
      This is string inequality (`DifferIff`), written by recursion because a
      plain `!=` between two joined paths makes the solver search for a
      differing position across every concatenation in scope. */
  predicate Differ(a: string, b: string)
  {
    if a == [] || b == [] then |a| != |b| else a[0] != b[0] || Differ(a[1..], b[1..])
  }

  lemma {:induction false} DifferUnequal(a: string, b: string)
    requires Differ(a, b)
    ensures a != b
  {
    if a != [] && b != [] && a[0] == b[0] {
      DifferUnequal(a[1..], b[1..]);
      assert a == [a[0]] + a[1..] && b == [b[0]] + b[1..];
    }
  }

  /** Unequal strings differ character by character. */
  lemma {:induction false} UnequalDiffer(a: string, b: string)
    requires a != b
    ensures Differ(a, b)
  {
    if a != [] && b != [] && a[0] == b[0] {
      assert a == [a[0]] + a[1..] && b == [b[0]] + b[1..];
      UnequalDiffer(a[1..], b[1..]);
    }
  }

  /** `Differ` is string inequality, stated by recursion so that proofs about
      it unfold one character at a time. */
  lemma DifferIff(a: string, b: string)
    ensures Differ(a, b) <==> a != b
  {
    if Differ(a, b) {
      DifferUnequal(a, b);
    }
    if a != b {
      UnequalDiffer(a, b);
    }
  }

  /** Joining plain names under two different directories gives different
      paths. */
  lemma JoinApart(a: Path, n: string, b: Path, m: string)
    requires Differ(DirPrefix(a), DirPrefix(b)) && Plain(n) && Plain(m)
    ensures Join(a, n) != Join(b, m)
  {
    DifferUnequal(DirPrefix(a), DirPrefix(b));
    DirPrefixEnds(a);
    DirPrefixEnds(b);
    PlainRelative(n);
    PlainRelative(m);
    DistinctDirs(DirPrefix(a), n, DirPrefix(b), m);
  }

  /** Concatenation regroups freely. */
  lemma Regroup(x: string, y: string, z: string)
    ensures x + y + z == x + (y + z)
  {
  }

  /** Equal strings with a common prefix have equal remainders. */
  lemma CancelPrefix(p: string, x: string, y: string)
    requires p + x == p + y
    ensures x == y
  {
    assert x == (p + x)[|p|..];
    assert y == (p + y)[|p|..];
  }

  /** Equal strings with a common suffix have equal beginnings. */
  lemma CancelSuffix(x: string, y: string, e: string)
    requires x + e == y + e
    ensures x == y
  {
    assert |x| == |y|;
    assert x == (x + e)[..|x|];
    assert y == (y + e)[..|y|];
  }
}
