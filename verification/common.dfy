/** Small shared vocabulary: an optional value and cardinality facts about finite sets. */
module Common {

  /** A value that may be missing, standing for Python's `None`. */
  datatype Option<+T> = None | Some(value: T)

  /** The outcome of an operation that the source ends by raising: a value or the reason it stopped. */
  datatype Result<+T, +E> = Ok(value: T) | Err(error: E)

  /** A subset is no larger than its superset. */
  lemma SubsetCard<T>(a: set<T>, b: set<T>)
    requires a <= b
    ensures |a| <= |b|
  {
    assert b == a + (b - a);
  }

  /** Removing a subset removes exactly its elements from the count. */
  lemma DifferenceCard<T>(a: set<T>, b: set<T>)
    requires b <= a
    ensures |a - b| == |a| - |b|
  {
    assert a == (a - b) + b;
  }

  /** The sizes of two disjoint sets add up. */
  lemma DisjointUnionCard<T>(a: set<T>, b: set<T>)
    requires a !! b
    ensures |a + b| == |a| + |b|
  {
  }
}
