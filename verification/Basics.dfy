/** Types the components share, and the size of a subset. */
module Basics {
  datatype Option<T> = None | Some(value: T)

  type Byte = bv8

  /** How a call to a service ends: an error may come with or without the effect. */
  datatype Fate = Done | FailedNoEffect | FailedButApplied

  lemma {:induction false} SubsetSize<T>(a: set<T>, b: set<T>)
    requires a <= b
    ensures |a| <= |b| && (a != b ==> |a| < |b|)
    decreases |a|
  {
    if a == {} {
    } else {
      var x :| x in a;
      SubsetSize(a - {x}, b - {x});
      assert a == (a - {x}) + {x} && b == (b - {x}) + {x};
    }
  }
}
