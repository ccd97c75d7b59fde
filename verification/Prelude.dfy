/** Shared helpers. */
module Prelude {
  datatype Option<+T> = None | Some(value: T)

  lemma SubsetSize<T>(s: set<T>, t: set<T>)
    requires s <= t
    ensures |s| <= |t|
  {
    assert t == s + (t - s);
  }
}
