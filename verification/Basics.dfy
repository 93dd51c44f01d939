/** What several components share: optional values, the 64-bit range, and the size of a subset. */
module Basics {

  datatype Option<+T> = None | Some(value: T)

  /** Number of values of an unsigned 64-bit integer. */
  const U64: nat := 0x1_0000_0000_0000_0000

  lemma {:induction false} SubsetSize<T>(a: set<T>, b: set<T>)
    requires a <= b
    ensures |a| <= |b|
  {
    if a != {} {
      var x :| x in a;
      SubsetSize(a - {x}, b - {x});
    }
  }
}
