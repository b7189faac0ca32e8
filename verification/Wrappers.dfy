/** Optional values, results that may be errors, and maps of counters. */
module Wrappers {
  datatype Option<+T> = None | Some(value: T)

  datatype Result<+T, +E> = Ok(value: T) | Err(error: E)

  /** A counter in a Go map: a missing key counts as zero. */
  function Get(m: map<string, nat>, k: string): nat {
    if k in m then m[k] else 0
  }
}
