/** Splitting paths into segments and joining them again.

  Splitting at a separator and joining undo each other, and splitting a path that continues
  below another path continues the other path's segments.  Exclusion patterns are matched on
  segments, and the managed namespace is recognized by a segment of its own, so both rely on
  these laws rather than on the characters of a path.
 */
module Segments {

  function Split(s: string, separator: char): (r: seq<string>)
    ensures r != []
  {
    if s == [] then [""]
    else
      var rest := Split(s[1..], separator);
      if s[0] == separator then [""] + rest else [[s[0]] + rest[0]] + rest[1..]
  }

  function Join(segments: seq<string>, separator: char): string
    requires segments != []
  {
    if |segments| == 1 then segments[0]
    else segments[0] + [separator] + Join(segments[1..], separator)
  }

  predicate AreSegments(segments: seq<string>, separator: char) {
    segments != [] && forall s <- segments :: separator !in s
  }

  lemma {:induction false} SplitHasSegments(s: string, separator: char)
    ensures AreSegments(Split(s, separator), separator)
  {
    if s != [] {
      SplitHasSegments(s[1..], separator);
    }
  }

  lemma {:induction false} SplitWhole(s: string, separator: char)
    requires separator !in s
    ensures Split(s, separator) == [s]
  {
    if s != [] {
      SplitWhole(s[1..], separator);
      assert [s[0]] + s[1..] == s;
    }
  }

  /** What the first character adds to the segments of the rest. */
  function Prepend(c: char, rest: seq<string>, separator: char): seq<string>
    requires rest != []
  {
    if c == separator then [""] + rest else [[c] + rest[0]] + rest[1..]
  }

  lemma PrependAppend(c: char, rest: seq<string>, later: seq<string>, separator: char)
    requires rest != []
    ensures Prepend(c, rest + later, separator) == Prepend(c, rest, separator) + later
  {
  }

  /** Splitting at a separator splits both sides. */
  lemma {:induction false} SplitAt(a: string, b: string, separator: char)
    ensures Split(a + [separator] + b, separator) == Split(a, separator) + Split(b, separator)
  {
    if a == [] {
      assert a + [separator] + b == [separator] + b;
    } else {
      SplitAt(a[1..], b, separator);
      assert a + [separator] + b == [a[0]] + (a[1..] + [separator] + b);
      assert a == [a[0]] + a[1..];
      PrependAppend(a[0], Split(a[1..], separator), Split(b, separator), separator);
    }
  }

  lemma {:induction false} SplitUndoesJoin(segments: seq<string>, separator: char)
    requires AreSegments(segments, separator)
    ensures Split(Join(segments, separator), separator) == segments
    decreases |segments|
  {
    SplitWhole(segments[0], separator);
    if |segments| > 1 {
      SplitUndoesJoin(segments[1..], separator);
      SplitAt(segments[0], Join(segments[1..], separator), separator);
      assert segments == [segments[0]] + segments[1..];
    }
  }

  lemma {:induction false} JoinUndoesSplit(s: string, separator: char)
    ensures Join(Split(s, separator), separator) == s
  {
    if s != [] {
      JoinUndoesSplit(s[1..], separator);
      var rest := Split(s[1..], separator);
      if s[0] == separator {
        assert ([""] + rest)[1..] == rest;
      } else {
        assert ([[s[0]] + rest[0]] + rest[1..])[1..] == rest[1..];
      }
    }
  }
}
