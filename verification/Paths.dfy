/** Slash-separated relative paths: prefixes, subtrees and moving a subtree.

  A path is below another only at a segment boundary, so `a/b` is below `a` and `ab` is not.  Two
  subtrees that share a path are nested.  Moving a subtree replaces the prefix of every path in
  it; outside the target that is injective and idempotent, and the reverse move undoes it.
 */
module Paths {

  /** The path itself or a path below it, matched at a segment boundary. */
  predicate Under(root: string, path: string) {
    path == root || root + "/" <= path
  }

  /** As Under, with the empty path standing for the whole source. */
  predicate IsSameOrDescendant(parent: string, child: string) {
    parent == "" || Under(parent, child)
  }

  /** Below a path are the path itself and what adds a slash and more to it. */
  lemma UnderExactly(root: string, path: string)
    ensures Under(root, path) <==> path == root || exists rest :: path == root + "/" + rest
  {
    if path != root && Under(root, path) {
      assert path == root + "/" + path[|root| + 1..];
    }
    if rest :| path == root + "/" + rest {
      assert path[..|root| + 1] == root + "/";
    }
  }

  /** What follows a moved root follows it to its new place; paths elsewhere stay. */
  lemma RebaseExactly(from: string, to: string, rest: string, path: string)
    ensures Rebase(from, from, to) == to && Rebase(from + "/" + rest, from, to) == to + "/" + rest
    ensures !Under(from, path) ==> Rebase(path, from, to) == path
  {
    UnderExactly(from, from + "/" + rest);
    assert (from + "/" + rest)[|from|..] == "/" + rest;
    assert to + ("/" + rest) == to + "/" + rest;
    assert from[|from|..] == "" && to + "" == to;
  }

  lemma UnderIsTransitive(a: string, b: string, c: string)
    requires Under(a, b) && Under(b, c)
    ensures Under(a, c)
  {
    if a != b && b != c {
      assert c[..|a + "/"|] == b[..|a + "/"|];
    }
  }

  /** Two subtrees that share a path are nested. */
  lemma SharedPathMeansNested(a: string, b: string, path: string)
    requires Under(a, path) && Under(b, path)
    ensures Under(a, b) || Under(b, a)
  {
    if path == a || path == b {
    } else if |a| < |b| {
      assert b + "/" == path[..|b| + 1];
      assert a + "/" == path[..|a| + 1];
      assert b[..|a| + 1] == path[..|a| + 1];
    } else if |b| < |a| {
      assert a + "/" == path[..|a| + 1];
      assert b + "/" == path[..|b| + 1];
      assert a[..|b| + 1] == path[..|b| + 1];
    } else {
      assert a + "/" == path[..|a| + 1] == b + "/";
      assert a == (a + "/")[..|a|];
    }
  }

  predicate Apart(a: string, b: string) {
    !Under(a, b) && !Under(b, a)
  }

  lemma ApartSubtreesAreDisjoint(a: string, b: string, path: string)
    requires Apart(a, b) && Under(a, path)
    ensures !Under(b, path)
  {
    if Under(b, path) {
      SharedPathMeansNested(a, b, path);
    }
  }

  /** Where a path goes when the subtree `from` is moved to `to`. */
  function Rebase(path: string, from: string, to: string): string {
    if Under(from, path) then to + path[|from|..] else path
  }

  lemma RebaseLandsUnder(path: string, from: string, to: string)
    requires Under(from, path)
    ensures Under(to, Rebase(path, from, to))
  {
    var r := Rebase(path, from, to);
    if path == from {
      assert r == to;
    } else {
      assert path[|from|] == '/';
      assert r[..|to| + 1] == to + "/";
    }
  }

  /** Moving a subtree and moving it back is the identity. */
  lemma RebaseUndone(path: string, from: string, to: string)
    requires Under(from, path) || !Under(to, path)
    ensures Rebase(Rebase(path, from, to), to, from) == path
  {
    if Under(from, path) {
      RebaseLandsUnder(path, from, to);
      assert Rebase(path, from, to)[|to|..] == path[|from|..];
      assert path == from + path[|from|..];
    }
  }

  /** Moving a subtree twice is moving it once. */
  lemma RebaseIsIdempotent(path: string, from: string, to: string)
    requires Apart(from, to)
    ensures Rebase(Rebase(path, from, to), from, to) == Rebase(path, from, to)
  {
    if Under(from, path) {
      RebaseLandsUnder(path, from, to);
      ApartSubtreesAreDisjoint(to, from, Rebase(path, from, to));
    }
  }

  lemma RebaseIsInjective(p: string, q: string, from: string, to: string)
    requires !Under(to, p) && !Under(to, q) && p != q
    ensures Rebase(p, from, to) != Rebase(q, from, to)
  {
    RebaseUndone(p, from, to);
    RebaseUndone(q, from, to);
  }
}
