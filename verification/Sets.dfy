/** Counting subsets.

  The lock manager's progress argument counts the holders that stand in a request's way, and the
  lifecycle registry counts the leases on a key.  Both compare such counts by comparing the sets
  that are counted: a subset has no more elements than the set it is part of, which this module
  states once for both of them.
 */
module Sets {

  lemma SubsetIsSmaller<T>(a: set<T>, b: set<T>)
    requires a <= b
    ensures |a| <= |b|
  {
    assert b == a + (b - a);
  }
}
