/** The byte-wise order of strings, in which the lock manager sorts its keys and the object
  listing its entries.

  It is a strict total order, and the strings that begin with a given prefix are neighbours in
  it.  That is what lets a listing roll such keys up into one common prefix while it goes, and
  what lets its pages be cut between common prefixes.
 */
module Strings {
  import opened Sorting
  import opened Wrappers

  /** Where a character first stands in a string. */
  function IndexOf(s: string, c: char): (r: Option<nat>)
    ensures r.None? <==> c !in s
    ensures r.Some? ==> r.value < |s| && s[r.value] == c && c !in s[..r.value]
  {
    if s == [] then None
    else if s[0] == c then Some(0)
    else match IndexOf(s[1..], c)
      case None => None
      case Some(i) => assert s[..i + 1] == [s[0]] + s[1..][..i]; Some(i + 1)
  }

  lemma {:induction false} IndexOfFirst(before: string, c: char, after: string)
    requires c !in before
    ensures IndexOf(before + [c] + after, c) == Some(|before|)
  {
    var s := before + [c] + after;
    if before != [] {
      assert s[1..] == before[1..] + [c] + after;
      IndexOfFirst(before[1..], c, after);
    }
  }

  /** The strict byte-wise order. */
  predicate Less(a: string, b: string) {
    b != [] && (a == [] || a[0] < b[0] || (a[0] == b[0] && Less(a[1..], b[1..])))
  }

  /** The first character in which two strings differ decides; a beginning comes before what it begins. */
  lemma {:induction false} LessExactly(common: string, c: char, a: string, d: char, b: string)
    requires c < d
    ensures Less(common + [c] + a, common + [d] + b) && Less(common, common + [c] + a)
  {
    if common != [] {
      assert (common + [c] + a)[1..] == common[1..] + [c] + a && (common + [d] + b)[1..] == common[1..] + [d] + b;
      LessExactly(common[1..], c, a, d, b);
    }
  }

  lemma {:induction false} LessIsTransitive(a: string, b: string, c: string)
    requires Less(a, b) && Less(b, c)
    ensures Less(a, c)
  {
    if a != [] && a[0] == b[0] == c[0] {
      LessIsTransitive(a[1..], b[1..], c[1..]);
    }
  }

  lemma {:induction false} LessIsTotal(a: string, b: string)
    ensures Less(a, b) || a == b || Less(b, a)
  {
    if a != [] && b != [] && a[0] == b[0] {
      LessIsTotal(a[1..], b[1..]);
      if a[1..] == b[1..] {
        assert a == [a[0]] + a[1..];
        assert b == [b[0]] + b[1..];
      }
    }
  }

  lemma {:induction false} LessIsStrict(a: string, b: string)
    ensures !(Less(a, b) && Less(b, a)) && !Less(a, a)
  {
    if a != [] {
      LessIsStrict(a[1..], a[1..]);
      if b != [] {
        LessIsStrict(a[1..], b[1..]);
      }
    }
  }

  /** The strings with a given prefix are neighbours. */
  lemma {:induction false} PrefixIsContiguous(prefix: string, a: string, b: string, c: string)
    requires prefix <= a && prefix <= c && Less(a, b) && Less(b, c)
    ensures prefix <= b
  {
    if prefix != [] {
      PrefixIsContiguous(prefix[1..], a[1..], b[1..], c[1..]);
    }
  }

  lemma LessIsStrictOrder()
    ensures StrictOrder(Less)
  {
    forall a, b ensures (Less(a, b) || a == b || Less(b, a)) && !(Less(a, b) && Less(b, a)) {
      LessIsTotal(a, b);
      LessIsStrict(a, b);
    }
    forall a, b, c | Less(a, b) && Less(b, c) ensures Less(a, c) {
      LessIsTransitive(a, b, c);
    }
  }
}
