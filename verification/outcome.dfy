/** Failure-compatible results for the kernels: a Rust panic is a `Panic` value
    that records why the call aborted. */
module Outcomes {

  /** `Option` as returned by Rust's `Iterator::max`. */
  datatype Option<+T> = None | Some(value: T)

  /** The three ways a kernel call can abort. */
  datatype Fault =
    | IndexOutOfBounds  // `values[id as usize]` with `id >= values.len()`
    | Overflow          // a checked `+` on `u64` whose true sum is at least 2^64
    | EmptySelection    // `unwrap` of the `None` that `max` yields for no rows

  /** The result of a kernel call: a value, or the panic that ended it. */
  datatype Outcome<+T> = Ok(value: T) | Panic(fault: Fault) {

    predicate IsFailure() {
      Panic?
    }

    function PropagateFailure<U>(): Outcome<U>
      requires Panic?
    {
      Panic(fault)
    }

    function Extract(): T
      requires Ok?
    {
      value
    }
  }
}
