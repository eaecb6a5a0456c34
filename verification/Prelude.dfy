/** Small types shared by every component model. */
module Prelude {
  datatype Option<+T> = None | Some(value: T)

  datatype Result<+T, +E> = Ok(value: T) | Err(error: E)

  /** A byte of a wire buffer. */
  newtype byte = x: int | 0 <= x < 256

  /** JavaScript's Number.MAX_SAFE_INTEGER. */
  const MAX_SAFE_INTEGER := 9007199254740991

  /** Number.isSafeInteger(n) && n >= 0. */
  predicate SafeNat(n: int) {
    0 <= n <= MAX_SAFE_INTEGER
  }

  function Max(a: int, b: int): int {
    if a < b then b else a
  }

  lemma {:induction false} SubsetSize<T>(a: set<T>, b: set<T>)
    requires a <= b
    ensures |a| <= |b|
  {
    if a != {} {
      var x :| x in a;
      SubsetSize(a - {x}, b - {x});
    }
  }
}
