// Absence and failure as values, and the size of finite sets.

module Wrappers {

  datatype Option<+T> = None | Some(value: T)

  /** What a call gives that may raise an exception. */
  datatype Outcome<+T> = Returned(value: T) | Raised

  lemma {:induction false} SubsetCardinality<T>(a: set<T>, b: set<T>)
    requires a <= b
    ensures |a| <= |b|
  {
    if a != {} {
      var x :| x in a;
      SubsetCardinality(a - {x}, b - {x});
    }
  }
}
