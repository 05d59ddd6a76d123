/** Strings in key order, and slash-separated paths as `boost::filesystem` joins and splits them. */
module Paths {
  import opened Base

  // ---------------------------------------------------------------- key order

  /** Lexicographic order, the order of ordered maps and of the key-value store. */
  predicate Leq(a: string, b: string) {
    a == "" || (b != "" && (a[0] < b[0] || (a[0] == b[0] && Leq(a[1..], b[1..]))))
  }

  lemma {:induction false} LeqReflexive(a: string)
    ensures Leq(a, a)
  {
    if a != "" { LeqReflexive(a[1..]); }
  }

  lemma {:induction false} LeqTotal(a: string, b: string)
    ensures Leq(a, b) || Leq(b, a)
  {
    if a != "" && b != "" && a[0] == b[0] { LeqTotal(a[1..], b[1..]); }
  }

  lemma {:induction false} LeqAntisymmetric(a: string, b: string)
    requires Leq(a, b) && Leq(b, a)
    ensures a == b
  {
    if a != "" {
      LeqAntisymmetric(a[1..], b[1..]);
      assert a == [a[0]] + a[1..] && b == [b[0]] + b[1..];
    }
  }

  lemma {:induction false} LeqTransitive(a: string, b: string, c: string)
    requires Leq(a, b) && Leq(b, c)
    ensures Leq(a, c)
  {
    if a != "" && a[0] == b[0] == c[0] { LeqTransitive(a[1..], b[1..], c[1..]); }
  }

  lemma {:induction false} LeastKeyExists(s: set<string>) returns (m: string)
    requires s != {}
    ensures m in s && forall x :: x in s ==> Leq(m, x)
    decreases |s|
  {
    m := Pick(s);
    var rest := s - {m};
    assert forall x :: x in s ==> x == m || x in rest;
    LeqReflexive(m);
    if rest != {} {
      var r := LeastKeyExists(rest);
      LeqTotal(m, r);
      if Leq(r, m) {
        LeqReflexive(r);
        m := r;
      } else {
        forall x | x in s ensures Leq(m, x) { if x in rest { LeqTransitive(m, r, x); } }
      }
    }
  }

  /** Where an ordered iterator over keys stands: the least of those not yet visited. */
  method LeastKey(s: set<string>) returns (m: string)
    requires s != {}
    ensures m in s && forall x :: x in s ==> Leq(m, x)
  {
    ghost var least := LeastKeyExists(s);
    m :| m in s && forall x :: x in s ==> Leq(m, x);
  }

  predicate StartsWith(s: string, r: string) { |r| <= |s| && s[..|r|] == r }

  lemma {:induction false} PrefixIsBelow(r: string, s: string)
    requires StartsWith(s, r)
    ensures Leq(r, s)
  {
    if r != "" {
      assert s[0] == r[0];
      assert s[1..][..|r|-1] == s[..|r|][1..];
      PrefixIsBelow(r[1..], s[1..]);
    }
  }

  /** Keys with a common prefix are contiguous: nothing without it lies between the prefix and a key that has it. */
  lemma {:induction false} PrefixIsContiguous(r: string, b: string, c: string)
    requires Leq(r, b) && Leq(b, c) && StartsWith(c, r)
    ensures StartsWith(b, r)
  {
    if r != "" {
      assert c[0] == r[0];
      assert c[1..][..|r|-1] == c[..|r|][1..];
      PrefixIsContiguous(r[1..], b[1..], c[1..]);
      assert b[..|r|] == [b[0]] + b[1..][..|r|-1];
      assert r == [r[0]] + r[1..];
    }
  }

  // ---------------------------------------------------------------- paths

  predicate IsName(s: string) { s != "" && forall i :: 0 <= i < |s| ==> s[i] != '/' }

  /** An absolute path without a trailing slash (but for the root) and without empty components. */
  predicate Normal(p: string) {
    p == "/" || (|p| > 1 && p[0] == '/' && p[|p|-1] != '/' && forall i :: 0 <= i < |p| - 1 ==> !(p[i] == '/' && p[i+1] == '/'))
  }

  /** `fs::path(a) / b`. */
  function Join(a: string, b: string): string {
    if a == "" || b == "" then a + b
    else if a[|a|-1] == '/' || b[0] == '/' then a + b
    else a + "/" + b
  }

  /** The position of the last slash, or -1. */
  function LastSlash(s: string): (r: int)
    ensures -1 <= r < |s|
    ensures r >= 0 ==> s[r] == '/'
    ensures forall i :: r < i < |s| ==> s[i] != '/'
  {
    if s == "" then -1 else if s[|s|-1] == '/' then |s| - 1 else LastSlash(s[..|s|-1])
  }

  /** `parent_path` and `filename`. */
  function ParentPath(p: string): string {
    var i := LastSlash(p);
    if i < 0 || p == "/" then "" else if i == 0 then "/" else p[..i]
  }

  function FileName(p: string): string { if p == "/" then "/" else p[LastSlash(p) + 1..] }

  lemma LastSlashIs(s: string, r: int)
    requires -1 <= r < |s| && (r >= 0 ==> s[r] == '/') && forall i :: r < i < |s| ==> s[i] != '/'
    ensures LastSlash(s) == r
  {
    var x := LastSlash(s);
    if x >= 0 { assert s[x] == '/'; }
    if r >= 0 { assert s[r] == '/'; }
  }

  /** Splitting a joined path gives back its parts. */
  lemma SplitJoined(dir: string, name: string)
    requires Normal(dir) && IsName(name)
    ensures Join(dir, name) != "/" && Normal(Join(dir, name))
    ensures ParentPath(Join(dir, name)) == dir && FileName(Join(dir, name)) == name
  {
    var p := Join(dir, name);
    var i := if dir == "/" then 0 else |dir|;
    assert p == p[..i] + "/" + name;
    LastSlashIs(p, i);
    assert p[i + 1..] == name;
    if dir == "/" {
      assert p[0] == '/';
    } else {
      assert p[..i] == dir;
    }
    forall j | 0 <= j < |p| - 1 ensures !(p[j] == '/' && p[j+1] == '/') {
      if j >= i { assert p[j+1] == name[j - i]; } else { assert p[j] == dir[j]; }
    }
  }

  /** And joining the parts of a path gives back the path. */
  lemma JoinSplit(p: string)
    requires Normal(p) && p != "/"
    ensures Normal(ParentPath(p)) && IsName(FileName(p)) && Join(ParentPath(p), FileName(p)) == p
    ensures |ParentPath(p)| < |p|
  {
    var i := LastSlash(p);
    assert p[0] == '/' && i >= 0 && i < |p| - 1;
    assert p == p[..i] + "/" + p[i+1..];
    if i > 0 {
      assert p[i-1] != '/';
      var d := p[..i];
      assert d[0] == '/' && d[|d|-1] == p[i-1];
      assert i - 1 != 0;
    }
  }

  /** The parent of a normal path, as the prefix up to its last slash. */
  lemma ParentIsPrefix(p: string)
    requires Normal(p) && p != "/"
    ensures 0 <= LastSlash(p) && Normal(ParentPath(p)) && |ParentPath(p)| < |p|
    ensures LastSlash(p) == 0 ==> ParentPath(p) == "/"
    ensures LastSlash(p) > 0 ==> ParentPath(p) == p[..LastSlash(p)]
  {
    JoinSplit(p);
    assert p[0] == '/';
  }
}
