/** Relative paths: cutting the root off a path, and joining a prefix with a relative path. */
module Paths {

  /** `s.substring(n)` for a non-negative `n`: the characters from position `n` on, or "" past the end. */
  function Cut(s: string, n: nat): string
  {
    if n <= |s| then s[n..] else ""
  }

  /** `s` with every leading '/' removed. */
  function DropSlashes(s: string): string
    decreases |s|
  {
    if |s| > 0 && s[0] == '/' then DropSlashes(s[1..]) else s
  }

  /** The key recorded for `path`: `root.length` characters cut off its front, then leading '/' removed.
      The cut does not check that `path` starts with `root`. */
  function Relative(path: string, root: string): string
  {
    DropSlashes(Cut(path, |root|))
  }

  /** `Path.join(dir, name)`, modelled as plain concatenation with one '/' between the parts. */
  function Join(dir: string, name: string): string
  {
    dir + "/" + name
  }

  predicate IsSuffix(s: string, t: string)
  {
    |s| <= |t| && t[|t| - |s|..] == s
  }

  predicate NoLeadingSlash(s: string)
  {
    |s| == 0 || s[0] != '/'
  }

  /** The prefix-strip loops: a cut of `root`'s length, then a loop removing one leading '/' at a time. */
  method StripRoot(path: string, root: string) returns (p: string)
    ensures p == Relative(path, root)
    ensures IsSuffix(p, path) && NoLeadingSlash(p)
  {
    p := if |root| <= |path| then path[|root|..] else "";
    while |p| > 0 && p[0] == '/'
      invariant DropSlashes(p) == Relative(path, root)
      invariant IsSuffix(p, path)
      decreases |p|
    {
      p := p[1..];
    }
  }

  lemma {:induction false} DropSlashesShape(s: string)
    ensures IsSuffix(DropSlashes(s), s)
    ensures NoLeadingSlash(DropSlashes(s))
    decreases |s|
  {
    if |s| > 0 && s[0] == '/' {
      DropSlashesShape(s[1..]);
      assert s[1..][|s[1..]| - |DropSlashes(s)|..] == s[|s| - |DropSlashes(s)|..];
    }
  }

  /** A suffix of a suffix is a suffix. */
  lemma SuffixTransitive(s: string, t: string, u: string)
    requires IsSuffix(s, t) && IsSuffix(t, u)
    ensures IsSuffix(s, u)
  {
    assert u[|u| - |t|..][|t| - |s|..] == u[|u| - |s|..];
  }

  /** The cut leaves a suffix of the path. */
  lemma CutIsSuffix(s: string, n: nat)
    ensures IsSuffix(Cut(s, n), s)
  {
    if n > |s| {
      assert s[|s|..] == [];
    }
  }

  /** The key is a suffix of the path and never starts with '/'. */
  lemma RelativeShape(path: string, root: string)
    ensures IsSuffix(Relative(path, root), path)
    ensures NoLeadingSlash(Relative(path, root))
  {
    var c := Cut(path, |root|);
    DropSlashesShape(c);
    CutIsSuffix(path, |root|);
    SuffixTransitive(DropSlashes(c), c, path);
  }

  /** Running the strip loop on its own result changes nothing. */
  lemma DropSlashesIdempotent(s: string)
    ensures DropSlashes(DropSlashes(s)) == DropSlashes(s)
  {
    DropSlashesShape(s);
  }

  /** When the path really is `root ++ s`, the key is `s` without its leading '/'. */
  lemma RelativeUnderRoot(root: string, s: string)
    ensures Relative(root + s, root) == DropSlashes(s)
  {
    assert (root + s)[|root|..] == s;
  }

  /** Stripping `prefix` from the key an upload used gives back the relative path uploaded. */
  lemma KeyRoundTrip(prefix: string, p: string)
    requires NoLeadingSlash(p)
    ensures Relative(Join(prefix, p), prefix) == p
  {
    assert Join(prefix, p) == prefix + ("/" + p);
    RelativeUnderRoot(prefix, "/" + p);
    assert ("/" + p)[1..] == p;
  }

  /** Two relative paths joined to the same prefix give the same key only when they are equal. */
  lemma JoinInjective(dir: string, a: string, b: string)
    requires Join(dir, a) == Join(dir, b)
    ensures a == b
  {
    var n := |dir| + 1;
    assert Join(dir, a)[n..] == a;
    assert Join(dir, b)[n..] == b;
  }

  /** The cut ignores what the root says: a root spelled "./dist" cuts six characters off "dist/a.txt". */
  lemma CutIgnoresPrefix()
    ensures Relative("dist/a.txt", "./dist") == ".txt"
  {
    assert "dist/a.txt"[6..] == ".txt";
  }
}
