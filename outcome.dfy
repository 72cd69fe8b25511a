/** How a benchmark program ends: with a value, with a Rust panic, or by never returning. */
module Outcomes {

  datatype Option<T> = None | Some(value: T) {
    /** `Option::unwrap_or`, the way every command-line default is applied. */
    function UnwrapOr(default: T): (r: T)
      ensures Some? ==> r == value
      ensures None? ==> r == default
    {
      match this
      case Some(v) => v
      case None => default
    }
  }

  /** The panics the planning code can raise. */
  datatype Panic =
    | RemainderByZero      // `x % 0` on an integer
    | DivisionByZero       // `x / 0` on an integer
    | IndexOutOfBounds     // `v[i]` with `i >= v.len()`
    | Aborted              // an explicit `panic!()`

  /** `Diverges` stands for a loop whose guard can never become false. */
  datatype Outcome<T> = Finished(value: T) | Panicked(panic: Panic) | Diverges

  function Min(a: nat, b: nat): nat
  {
    if a <= b then a else b
  }

  /** The largest value of Rust's `u64`. */
  const U64Max: nat := 0xFFFF_FFFF_FFFF_FFFF
}
