/** Exclusion patterns (internal/security/exclude.go): a pattern is a list of segments, of which
  `**` stands for any run of path segments.
 */
module Exclude {
  import opened Paths
  import opened Segments
  import opened Wrappers

  const SEPARATOR := '/'

  /** Matching of one segment by the standard library: None for a malformed pattern. */
  type MatchOne = (string, string) -> Option<bool>

  /** A pattern segment without the glob characters matches itself and nothing else. */
  predicate IsLiteral(p: string) {
    forall c <- p :: c !in {'*', '?', '[', '\\'}
  }

  ghost predicate MatchesLiterals(one: MatchOne) {
    forall p, s :: IsLiteral(p) ==> one(p, s) == Some(p == s)
  }

  const FORCED_PATTERNS := [
    ".omnistore",
    "**/.omnistore",
    ".omnistore/**",
    "**/.omnistore/**",
    ".omnistore-upload-*",
    "**/.omnistore-upload-*",
    ".omnistore-copy-*",
    "**/.omnistore-copy-*",
    ".omnistore-write-test-*",
    "**/.omnistore-write-test-*"
  ]

  // -------------------------------------------------------------------- matching

  predicate MatchSegments(one: MatchOne, pattern: seq<string>, segs: seq<string>)
    decreases |pattern| + |segs|
  {
    if pattern == [] then segs == []
    else if pattern[0] == "**" then
      MatchSegments(one, pattern[1..], segs) || (segs != [] && MatchSegments(one, pattern, segs[1..]))
    else segs != [] && one(pattern[0], segs[0]) == Some(true) && MatchSegments(one, pattern[1..], segs[1..])
  }

  /** The declarative meaning: the path is cut into one run of segments per pattern segment; `**` takes
      a run of any length, any other pattern segment one path segment that it matches. */
  predicate IsCut(one: MatchOne, pattern: seq<string>, segs: seq<string>, cuts: seq<nat>) {
    && |cuts| == |pattern| + 1 && cuts[0] == 0 && cuts[|pattern|] == |segs|
    && (forall i :: 0 <= i < |cuts| ==> cuts[i] <= |segs|)
    && forall i :: 0 <= i < |pattern| ==> FitsRun(one, pattern[i], segs, cuts[i], cuts[i + 1])
  }

  predicate FitsRun(one: MatchOne, p: string, segs: seq<string>, from: nat, to: nat) {
    if p == "**" then from <= to
    else to == from + 1 && from < |segs| && one(p, segs[from]) == Some(true)
  }

  lemma {:induction false} MatchHasCut(one: MatchOne, pattern: seq<string>, segs: seq<string>) returns (cuts: seq<nat>)
    requires MatchSegments(one, pattern, segs)
    ensures IsCut(one, pattern, segs, cuts)
    decreases |pattern| + |segs|
  {
    if pattern == [] {
      cuts := [0];
    } else if pattern[0] == "**" && MatchSegments(one, pattern[1..], segs) {
      var rest := MatchHasCut(one, pattern[1..], segs);
      cuts := [0] + rest;
      forall i | 0 <= i < |pattern| ensures FitsRun(one, pattern[i], segs, cuts[i], cuts[i + 1]) {
        assert i > 0 ==> FitsRun(one, pattern[1..][i - 1], segs, rest[i - 1], rest[i]);
      }
    } else if pattern[0] == "**" {
      var rest := MatchHasCut(one, pattern, segs[1..]);
      cuts := Shifted(rest)[0 := 0];
      forall i | 0 <= i < |pattern| ensures FitsRun(one, pattern[i], segs, cuts[i], cuts[i + 1]) {
        assert FitsRun(one, pattern[i], segs[1..], rest[i], rest[i + 1]);
      }
    } else {
      var rest := MatchHasCut(one, pattern[1..], segs[1..]);
      cuts := [0] + Shifted(rest);
      forall i | 0 <= i < |pattern| ensures FitsRun(one, pattern[i], segs, cuts[i], cuts[i + 1]) {
        assert i > 0 ==> FitsRun(one, pattern[1..][i - 1], segs[1..], rest[i - 1], rest[i]);
      }
    }
  }

  function Shifted(cuts: seq<nat>): (r: seq<nat>)
    ensures |r| == |cuts| && forall i :: 0 <= i < |cuts| ==> r[i] == cuts[i] + 1
  {
    seq(|cuts|, i requires 0 <= i < |cuts| => cuts[i] + 1)
  }

  function ShiftedBack(cuts: seq<nat>): (r: seq<nat>)
    ensures |r| == |cuts| && forall i :: 0 <= i < |cuts| ==> r[i] == if cuts[i] == 0 then 0 else cuts[i] - 1
  {
    seq(|cuts|, i requires 0 <= i < |cuts| => if cuts[i] == 0 then 0 else cuts[i] - 1)
  }

  /** Cut points never go back. */
  lemma {:induction false} CutsGrow(one: MatchOne, pattern: seq<string>, segs: seq<string>, cuts: seq<nat>, i: nat, j: nat)
    requires IsCut(one, pattern, segs, cuts) && i <= j <= |pattern|
    ensures cuts[i] <= cuts[j]
    decreases j - i
  {
    if i < j {
      CutsGrow(one, pattern, segs, cuts, i, j - 1);
      assert FitsRun(one, pattern[j - 1], segs, cuts[j - 1], cuts[j]);
    }
  }

  lemma {:induction false} CutMatches(one: MatchOne, pattern: seq<string>, segs: seq<string>, cuts: seq<nat>)
    requires IsCut(one, pattern, segs, cuts)
    ensures MatchSegments(one, pattern, segs)
    decreases |pattern| + |segs|
  {
    if pattern != [] {
      assert FitsRun(one, pattern[0], segs, cuts[0], cuts[1]);
      if cuts[1] == 0 {
        forall i | 0 <= i < |pattern| - 1 ensures FitsRun(one, pattern[1..][i], segs, cuts[1..][i], cuts[1..][i + 1]) {
          assert FitsRun(one, pattern[i + 1], segs, cuts[i + 1], cuts[i + 2]);
        }
        CutMatches(one, pattern[1..], segs, cuts[1..]);
      } else {
        var back := ShiftedBack(cuts);
        forall i | 0 < i < |pattern| ensures FitsRun(one, pattern[i], segs[1..], back[i], back[i + 1]) {
          CutsGrow(one, pattern, segs, cuts, 1, i);
          assert FitsRun(one, pattern[i], segs, cuts[i], cuts[i + 1]);
        }
        CutsGrow(one, pattern, segs, cuts, 1, |pattern|);
        if pattern[0] == "**" {
          CutMatches(one, pattern, segs[1..], back);
        } else {
          forall i | 0 <= i < |pattern| - 1
            ensures FitsRun(one, pattern[1..][i], segs[1..], back[1..][i], back[1..][i + 1])
          {
            assert FitsRun(one, pattern[i + 1], segs[1..], back[i + 1], back[i + 2]);
          }
          CutMatches(one, pattern[1..], segs[1..], back[1..]);
        }
      }
    }
  }

  /** The recursion and the meaning agree. */
  lemma MatchMeansCut(one: MatchOne, pattern: seq<string>, segs: seq<string>)
    ensures MatchSegments(one, pattern, segs) <==> exists cuts :: IsCut(one, pattern, segs, cuts)
  {
    if MatchSegments(one, pattern, segs) {
      var cuts := MatchHasCut(one, pattern, segs);
    }
    if cuts :| IsCut(one, pattern, segs, cuts) {
      CutMatches(one, pattern, segs, cuts);
    }
  }

  // ------------------------------------------------------------- whole matchers

  predicate IsMatch(one: MatchOne, patterns: seq<seq<string>>, path: string) {
    path != "" && exists p <- patterns :: MatchSegments(one, p, Split(path, SEPARATOR))
  }

  /** The path or one of its parents matches. */
  predicate IsPrefixMatch(one: MatchOne, patterns: seq<seq<string>>, path: string) {
    path != "" &&
    var segs := Split(path, SEPARATOR);
    exists i :: 1 <= i <= |segs| && IsMatch(one, patterns, Join(segs[..i], SEPARATOR))
  }

  /** What an exclusion covers it covers with everything below. */
  lemma PrefixMatchIsClosed(one: MatchOne, patterns: seq<seq<string>>, path: string, below: string)
    requires IsPrefixMatch(one, patterns, path) && Under(path, below)
    ensures IsPrefixMatch(one, patterns, below)
  {
    if below != path {
      var rest := below[|path| + 1..];
      assert below == path + [SEPARATOR] + rest;
      SplitAt(path, rest, SEPARATOR);
      var segs := Split(path, SEPARATOR);
      var i :| 1 <= i <= |segs| && IsMatch(one, patterns, Join(segs[..i], SEPARATOR));
      assert Split(below, SEPARATOR)[..i] == segs[..i];
    }
  }

  /** Being excluded means that some path at or above is matched. */
  lemma PrefixMatchIsInherited(one: MatchOne, patterns: seq<seq<string>>, path: string)
    ensures IsPrefixMatch(one, patterns, path) <==> exists above :: IsMatch(one, patterns, above) && Under(above, path)
  {
    var segs := Split(path, SEPARATOR);
    if IsPrefixMatch(one, patterns, path) {
      var i :| 1 <= i <= |segs| && IsMatch(one, patterns, Join(segs[..i], SEPARATOR));
      JoinUndoesSplit(path, SEPARATOR);
      JoinPrefixIsAbove(segs, i);
    }
    if above :| IsMatch(one, patterns, above) && Under(above, path) {
      JoinUndoesSplit(above, SEPARATOR);
      var n := |Split(above, SEPARATOR)|;
      assert Split(above, SEPARATOR)[..n] == Split(above, SEPARATOR);
      PrefixMatchIsClosed(one, patterns, above, path);
    }
  }

  lemma {:induction false} JoinPrefixIsAbove(segs: seq<string>, i: nat)
    requires 1 <= i <= |segs|
    ensures Under(Join(segs[..i], SEPARATOR), Join(segs, SEPARATOR))
    decreases |segs|
  {
    var a, b := Join(segs[..i], SEPARATOR), Join(segs, SEPARATOR);
    if i == |segs| {
      assert segs[..i] == segs;
    } else if i == 1 {
      assert a == segs[0];
      assert b == segs[0] + "/" + Join(segs[1..], SEPARATOR);
    } else {
      assert segs[..i][1..] == segs[1..][..i - 1];
      JoinPrefixIsAbove(segs[1..], i - 1);
      var c, d := Join(segs[1..][..i - 1], SEPARATOR), Join(segs[1..], SEPARATOR);
      assert a == segs[0] + "/" + c && b == segs[0] + "/" + d;
      if c != d {
        assert c + "/" == d[..|c| + 1];
        assert b[..|a| + 1] == a + "/";
      }
    }
  }

  // ---------------------------------------------------------- compiling patterns

  predicate IsSpace(c: char) {
    c in {' ', '\t', '\n', '\r', '\U{0B}', '\U{0C}', '\U{85}', '\U{A0}', '\U{1680}', '\U{2028}', '\U{2029}', '\U{202F}', '\U{205F}', '\U{3000}'}
    || '\U{2000}' <= c <= '\U{200A}'
  }

  /** The white space of Unicode. */
  lemma SpacesExactly(c: char)
    ensures IsSpace(c) <==>
            || 9 <= c as int <= 13 || 0x2000 <= c as int <= 0x200A
            || c as int in {0x20, 0x85, 0xA0, 0x1680, 0x2028, 0x2029, 0x202F, 0x205F, 0x3000}
  {
    assert c as int in {9, 10, 11, 12, 13} <==> c in {'\t', '\n', '\U{0B}', '\U{0C}', '\r'};
  }

  function TrimLeft(s: string, drop: char -> bool): string {
    if s != [] && drop(s[0]) then TrimLeft(s[1..], drop) else s
  }

  function TrimRight(s: string, drop: char -> bool): string {
    if s != [] && drop(s[|s| - 1]) then TrimRight(s[..|s| - 1], drop) else s
  }

  function Trim(s: string, drop: char -> bool): string {
    TrimRight(TrimLeft(s, drop), drop)
  }

  function Slashed(s: string): string {
    if s == [] then [] else [if s[0] == '\\' then '/' else s[0]] + Slashed(s[1..])
  }

  function Clean(p: string): string {
    Trim(Trim(Slashed(p), c => IsSpace(c)), c => c == '/')
  }

  predicate All(s: string, keep: char -> bool) {
    forall c <- s :: keep(c)
  }

  /** Nothing at either end of the core is to be dropped. */
  predicate Bare(core: string, drop: char -> bool) {
    core == "" || (!drop(core[0]) && !drop(core[|core| - 1]))
  }

  lemma {:induction false} TrimLeftExactly(left: string, s: string, drop: char -> bool)
    requires All(left, drop) && (s == "" || !drop(s[0]))
    ensures TrimLeft(left + s, drop) == s
  {
    if left == [] {
      assert left + s == s;
    } else {
      assert (left + s)[1..] == left[1..] + s;
      TrimLeftExactly(left[1..], s, drop);
    }
  }

  lemma {:induction false} TrimRightExactly(s: string, right: string, drop: char -> bool)
    requires All(right, drop) && (s == "" || !drop(s[|s| - 1]))
    ensures TrimRight(s + right, drop) == s
    decreases |right|
  {
    if right == [] {
      assert s + right == s;
    } else {
      var n := |right| - 1;
      assert (s + right)[..|s| + n] == s + right[..n];
      TrimRightExactly(s, right[..n], drop);
    }
  }

  lemma TrimExactly(left: string, core: string, right: string, drop: char -> bool)
    requires All(left, drop) && All(right, drop) && Bare(core, drop)
    ensures Trim(left + core + right, drop) == core
  {
    if core == "" {
      assert left + core + right == (left + right) + "";
      TrimLeftExactly(left + right, "", drop);
    } else {
      assert left + core + right == left + (core + right);
      TrimLeftExactly(left, core + right, drop);
      TrimRightExactly(core, right, drop);
    }
  }

  lemma {:induction false} SlashedExactly(s: string)
    ensures |Slashed(s)| == |s| && forall i :: 0 <= i < |s| ==> Slashed(s)[i] == if s[i] == '\\' then '/' else s[i]
  {
    if s != [] {
      SlashedExactly(s[1..]);
    }
  }

  /** A user's pattern: backslashes are slashes, spaces around it go, and then slashes around it. */
  lemma CleanExactly(p: string, left: string, slashes: string, core: string, more: string, right: string)
    requires Slashed(p) == left + (slashes + core + more) + right
    requires All(left, c => IsSpace(c)) && All(right, c => IsSpace(c)) && Bare(slashes + core + more, c => IsSpace(c))
    requires All(slashes, c => c == '/') && All(more, c => c == '/') && Bare(core, c => c == '/')
    ensures Clean(p) == core
  {
    TrimExactly(left, slashes + core + more, right, c => IsSpace(c));
    TrimExactly(slashes, core, more, c => c == '/');
  }

  function Compiled(patterns: seq<string>): seq<seq<string>> {
    if patterns == [] then []
    else
      var n := |patterns| - 1;
      var p := Clean(patterns[n]);
      Compiled(patterns[..n]) + if p == "" then [] else [Split(p, SEPARATOR)]
  }

  /** A pattern gives one list of segments, or none if nothing is left of it. */
  lemma CompiledOne(p: string)
    ensures Compiled([p]) == if Clean(p) == "" then [] else [Split(Clean(p), SEPARATOR)]
  {
    assert [p][..0] == [];
  }

  /** The lists stand in the order of the patterns. */
  lemma CompiledLast(front: seq<string>, p: string)
    ensures Compiled(front + [p]) == Compiled(front) + Compiled([p])
  {
    assert (front + [p])[..|front|] == front;
    assert [p][..0] == [];
  }

  lemma {:induction false} CompiledKeeps(patterns: seq<string>, i: nat)
    requires i < |patterns| && Clean(patterns[i]) != ""
    ensures Split(Clean(patterns[i]), SEPARATOR) in Compiled(patterns)
    decreases |patterns|
  {
    if i < |patterns| - 1 {
      CompiledKeeps(patterns[..|patterns| - 1], i);
    }
  }

  const MANAGED_NAME := ".omnistore"

  lemma {:induction false} SlashedKeeps(s: string)
    requires '\\' !in s
    ensures Slashed(s) == s
  {
    if s != [] {
      SlashedKeeps(s[1..]);
    }
  }

  /** A pattern with nothing to clean stays as it is. */
  lemma CleanKeeps(p: string)
    requires p != "" && '\\' !in p
    requires !IsSpace(p[0]) && p[0] != '/' && !IsSpace(p[|p| - 1]) && p[|p| - 1] != '/'
    ensures Clean(p) == p
  {
    SlashedKeeps(p);
    assert Trim(p, c => IsSpace(c)) == p;
    assert Trim(p, c => c == '/') == p;
  }

  lemma SplitPair(a: string, b: string)
    requires SEPARATOR !in a && SEPARATOR !in b
    ensures Split(a + [SEPARATOR] + b, SEPARATOR) == [a, b]
  {
    SplitAt(a, b, SEPARATOR);
    SplitWhole(a, SEPARATOR);
    SplitWhole(b, SEPARATOR);
  }

  /** A forced pattern of two segments with nothing to clean is compiled to them, whatever user
      patterns follow. */
  lemma ForcedPairCompiles(forced: seq<string>, user: seq<string>, i: nat, a: string, b: string)
    requires i < |forced| && forced[i] == a + [SEPARATOR] + b && '\\' !in forced[i]
    requires a != "" && b != "" && SEPARATOR !in a && SEPARATOR !in b && !IsSpace(a[0]) && !IsSpace(b[|b| - 1])
    ensures [a, b] in Compiled(forced + user)
  {
    var p := forced[i];
    assert (forced + user)[i] == p;
    assert p[0] == a[0] && p[|p| - 1] == b[|b| - 1];
    CleanKeeps(p);
    SplitPair(a, b);
    CompiledKeeps(forced + user, i);
  }

  /** The second forced pattern: the managed name at any depth. */
  lemma ForcedPatternCompiles(user: seq<string>)
    ensures ["**", MANAGED_NAME] in Compiled(FORCED_PATTERNS + user)
  {
    ForcedPairCompiles(FORCED_PATTERNS, user, 1, "**", MANAGED_NAME);
  }

  lemma LastSegmentMatches(one: MatchOne, name: string, segs: seq<string>)
    requires name != "**" && segs != [] && one(name, segs[|segs| - 1]) == Some(true)
    ensures MatchSegments(one, ["**", name], segs)
  {
    var k := |segs| - 1;
    var cuts: seq<nat> := [0, k, k + 1];
    assert FitsRun(one, "**", segs, 0, k);
    assert FitsRun(one, name, segs, k, k + 1);
    CutMatches(one, ["**", name], segs, cuts);
  }

  lemma AnyDepthIsExcluded(one: MatchOne, patterns: seq<seq<string>>, path: string, k: nat, name: string)
    requires ["**", name] in patterns && name != "**"
    requires k < |Split(path, SEPARATOR)| && one(name, Split(path, SEPARATOR)[k]) == Some(true) && Split(path, SEPARATOR)[k] != ""
    ensures IsPrefixMatch(one, patterns, path)
  {
    var segs := Split(path, SEPARATOR);
    var above := Join(segs[..k + 1], SEPARATOR);
    SplitHasSegments(path, SEPARATOR);
    SplitUndoesJoin(segs[..k + 1], SEPARATOR);
    if above == "" {
      assert segs[..k + 1] == [""];
    }
    LastSegmentMatches(one, name, segs[..k + 1]);
    assert IsMatch(one, patterns, above);
  }

  /** No user pattern can lift it: any path with a managed segment, at any depth, is excluded. */
  lemma ManagedPathsAreExcluded(one: MatchOne, user: seq<string>, path: string)
    requires MatchesLiterals(one) && ".omnistore" in Split(path, '/')
    ensures IsPrefixMatch(one, Compiled(FORCED_PATTERNS + user), path)
  {
    var segs := Split(path, SEPARATOR);
    var k :| 0 <= k < |segs| && segs[k] == MANAGED_NAME;
    assert IsLiteral(MANAGED_NAME);
    ForcedPatternCompiles(user);
    AnyDepthIsExcluded(one, Compiled(FORCED_PATTERNS + user), path, k, MANAGED_NAME);
  }

  /** A forced pattern for any depth: the name it ends with needs no cleaning. */
  predicate IsAnyDepth(i: nat, name: string) {
    i < |FORCED_PATTERNS| && FORCED_PATTERNS[i] == "**" + [SEPARATOR] + name && IsPlain(name)
  }

  predicate IsPlain(name: string) {
    name != "" && (forall c <- name :: c != '\\' && c != SEPARATOR) && !IsSpace(name[|name| - 1])
  }

  lemma AnyDepthCompiles(user: seq<string>, i: nat, name: string)
    requires IsAnyDepth(i, name)
    ensures ["**", name] in Compiled(FORCED_PATTERNS + user)
  {
    assert forall c <- FORCED_PATTERNS[i] :: c in "**" || c == SEPARATOR || c in name;
    ForcedPairCompiles(FORCED_PATTERNS, user, i, "**", name);
  }

  lemma UploadPattern()
    ensures IsAnyDepth(5, ".omnistore-upload-*")
  {
  }

  lemma CopyPattern()
    ensures IsAnyDepth(7, ".omnistore-copy-*")
  {
  }

  lemma WriteTestPattern()
    ensures IsAnyDepth(9, ".omnistore-write-test-*")
  {
  }

  /** Likewise the names of temporary files: any path with a segment that matches one of them. */
  lemma TemporaryPathsAreExcluded(one: MatchOne, user: seq<string>, path: string, k: nat, name: string)
    requires name in {".omnistore-upload-*", ".omnistore-copy-*", ".omnistore-write-test-*"}
    requires k < |Split(path, '/')| && Split(path, '/')[k] != "" && one(name, Split(path, '/')[k]) == Some(true)
    ensures IsPrefixMatch(one, Compiled(FORCED_PATTERNS + user), path)
  {
    UploadPattern();
    CopyPattern();
    WriteTestPattern();
    AnyDepthCompiles(user, if name == ".omnistore-upload-*" then 5 else if name == ".omnistore-copy-*" then 7 else 9, name);
    AnyDepthIsExcluded(one, Compiled(FORCED_PATTERNS + user), path, k, name);
  }

  // ---------------------------------------------------------- the code, as run

  class ExcludeMatcher {
    const one: MatchOne
    var patterns: seq<seq<string>>

    constructor (one: MatchOne, user: seq<string>)
      ensures this.one == one && patterns == Compiled(FORCED_PATTERNS + user)
    {
      this.one := one;
      new;
      patterns := CompileAll(FORCED_PATTERNS + user);
    }

    static method CompileAll(all: seq<string>) returns (patterns: seq<seq<string>>)
      ensures patterns == Compiled(all)
    {
      patterns := [];
      for i := 0 to |all|
        invariant patterns == Compiled(all[..i])
      {
        assert all[..i + 1][..i] == all[..i];
        var p := Clean(all[i]);
        if p == "" {
          continue;
        }
        patterns := patterns + [Split(p, SEPARATOR)];
      }
      assert all[..|all|] == all;
    }

    method Match(path: string) returns (r: bool)
      ensures r <==> IsMatch(one, patterns, path)
    {
      if path == "" {
        return false;
      }
      var segs := Split(path, SEPARATOR);
      for i := 0 to |patterns|
        invariant forall k :: 0 <= k < i ==> !MatchSegments(one, patterns[k], segs)
      {
        if MatchSegments(one, patterns[i], segs) {
          return true;
        }
      }
      return false;
    }

    method MatchPrefix(path: string) returns (r: bool)
      ensures r <==> IsPrefixMatch(one, patterns, path)
    {
      if path == "" {
        return false;
      }
      var segs := Split(path, SEPARATOR);
      for i := 1 to |segs| + 1
        invariant forall k :: 1 <= k < i ==> !IsMatch(one, patterns, Join(segs[..k], SEPARATOR))
      {
        var matched := Match(Join(segs[..i], SEPARATOR));
        if matched {
          return true;
        }
      }
      return false;
    }
  }
}
