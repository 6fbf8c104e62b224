/**
 * Shared vocabulary: optional values (Python's None) and the exceptions the
 * simulator raises, as results instead of control flow.
 */
module Base {

  /** Python's `None` versus a present value. */
  datatype Option<+T> = None | Some(value: T)

  /** The exception classes the simulator core raises. */
  datatype Error =
    | ValueError      // bad connect/disconnect, bad port binding
    | KeyError        // a keyword binding naming no attribute
    | AttributeError  // an object lacking the attribute that is used
    | RuntimeError    // an event triggered a second time

  /** An operation that returns nothing, or raises. */
  datatype Outcome = Pass | Fail(error: Error)

  /** An operation that returns a value, or raises. */
  datatype Result<+T> = Ok(value: T) | Err(error: Error)

  /** No element occurs twice. */
  ghost predicate NoDup<T>(s: seq<T>) {
    forall i, j | 0 <= i < j < |s| :: s[i] != s[j]
  }

  /** Joining two duplicate-free sequences with nothing in common leaves no duplicate. */
  lemma NoDupAppend<T>(a: seq<T>, b: seq<T>)
    requires NoDup(a) && NoDup(b)
    requires forall i, j | 0 <= i < |a| && 0 <= j < |b| :: a[i] != b[j]
    ensures NoDup(a + b)
  {
    forall i, j | 0 <= i < j < |a + b| ensures (a + b)[i] != (a + b)[j] {
      if j < |a| {
      } else if i < |a| {
        assert (a + b)[j] == b[j - |a|];
      } else {
        assert (a + b)[i] == b[i - |a|] && (a + b)[j] == b[j - |a|];
      }
    }
  }
}
