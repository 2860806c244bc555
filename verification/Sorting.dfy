/** Sorting under any strict total order, by insertion.

  It stands for the sort of the standard library, of which the program uses two properties: the
  result is in order, and it holds the elements it was given, each as often as it was given.  A
  sequence that is sorted and has no element twice is then strictly sorted, which is what the
  lock manager and the lifecycle registry want of their keys.
 */
module Sorting {

  ghost predicate StrictOrder<T(!new)>(less: (T, T) -> bool) {
    && (forall a, b :: less(a, b) || a == b || less(b, a))
    && (forall a, b :: !(less(a, b) && less(b, a)))
    && (forall a, b, c :: less(a, b) && less(b, c) ==> less(a, c))
  }

  ghost predicate Sorted<T>(less: (T, T) -> bool, s: seq<T>) {
    forall i, j :: 0 <= i < j < |s| ==> !less(s[j], s[i])
  }

  ghost predicate StrictlySorted<T>(less: (T, T) -> bool, s: seq<T>) {
    forall i, j :: 0 <= i < j < |s| ==> less(s[i], s[j])
  }

  function Insert<T>(less: (T, T) -> bool, x: T, s: seq<T>): seq<T> {
    if s == [] || !less(s[0], x) then [x] + s else [s[0]] + Insert(less, x, s[1..])
  }

  function Sort<T>(less: (T, T) -> bool, s: seq<T>): seq<T> {
    if s == [] then [] else Insert(less, s[0], Sort(less, s[1..]))
  }

  lemma NotBelow<T(!new)>(less: (T, T) -> bool, a: T, b: T, x: T)
    requires StrictOrder(less) && !less(a, x) && !less(b, a)
    ensures !less(b, x)
  {
  }

  lemma {:induction false} InsertKeeps<T>(less: (T, T) -> bool, x: T, s: seq<T>)
    ensures multiset(Insert(less, x, s)) == multiset([x]) + multiset(s)
    ensures forall y <- Insert(less, x, s) :: y == x || y in s
  {
    if s != [] && less(s[0], x) {
      InsertKeeps(less, x, s[1..]);
      assert s == [s[0]] + s[1..];
    }
  }

  lemma {:induction false} InsertSorts<T(!new)>(less: (T, T) -> bool, x: T, s: seq<T>)
    requires StrictOrder(less) && Sorted(less, s)
    ensures Sorted(less, Insert(less, x, s))
  {
    if s == [] {
    } else if !less(s[0], x) {
      forall i | 0 <= i < |s| ensures !less(s[i], x) {
        NotBelow(less, s[0], s[i], x);
      }
    } else {
      InsertSorts(less, x, s[1..]);
      InsertKeeps(less, x, s[1..]);
      var r := Insert(less, x, s[1..]);
      forall i | 0 <= i < |r| ensures !less(r[i], s[0]) {
        assert r[i] in r;
      }
    }
  }

  lemma {:induction false} SortSorts<T(!new)>(less: (T, T) -> bool, s: seq<T>)
    requires StrictOrder(less)
    ensures Sorted(less, Sort(less, s)) && multiset(Sort(less, s)) == multiset(s)
    ensures forall x :: x in Sort(less, s) <==> x in s
  {
    if s != [] {
      SortSorts(less, s[1..]);
      InsertSorts(less, s[0], Sort(less, s[1..]));
      InsertKeeps(less, s[0], Sort(less, s[1..]));
      assert s == [s[0]] + s[1..];
    }
    forall x ensures x in Sort(less, s) <==> x in s {
      assert x in multiset(Sort(less, s)) <==> x in multiset(s);
    }
  }

  /** A sorted sequence without duplicates is strictly sorted. */
  lemma SortedDistinct<T(!new)>(less: (T, T) -> bool, s: seq<T>)
    requires StrictOrder(less) && Sorted(less, s)
    requires forall i, j :: 0 <= i < j < |s| ==> s[i] != s[j]
    ensures StrictlySorted(less, s)
  {
  }

  lemma StrictlySortedIsDistinct<T(!new)>(less: (T, T) -> bool, s: seq<T>)
    requires StrictOrder(less) && StrictlySorted(less, s)
    ensures forall i, j :: 0 <= i < j < |s| ==> s[i] != s[j]
  {
  }
}
