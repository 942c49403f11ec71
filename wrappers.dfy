/** Helpers shared by the models: the optional value, and set cardinality. */
module Wrappers {
  /** A C NULL or a Java null is None. */
  datatype Option<T> = None | Some(value: T)

  /** A subset is no larger than its superset. */
  lemma {:induction false} SubsetCard<T>(a: set<T>, b: set<T>)
    requires a <= b
    ensures |a| <= |b|
  {
    if a != {} {
      var x :| x in a;
      SubsetCard(a - {x}, b - {x});
    }
  }
}
