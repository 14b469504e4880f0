/** Value types shared by every component: fixed-width integers, and the
    three shapes a call can end in (an optional value, a value or an error,
    and a return or a panic). */
module Prelude {

  /** An unsigned 8-bit integer. */
  type u8 = x: int | 0 <= x < 0x100

  /** An unsigned 16-bit integer. */
  type u16 = x: int | 0 <= x < 0x1_0000

  /** An unsigned 32-bit integer. */
  type u32 = x: int | 0 <= x < 0x1_0000_0000

  datatype Option<+T> = None | Some(value: T)

  datatype Result<+T, +E> = Ok(value: T) | Err(error: E)

  /** How a call that may panic ends: it returns a value, or it panics
      (`unreachable!()`, an arithmetic overflow, a failed `expect`). */
  datatype Exit<+T> = Returned(value: T) | Panicked

  /** The value of `m` at `k`, or 0 when `k` is absent, as a map lookup
      that falls back to zero. */
  function GetOrZero<K>(m: map<K, nat>, k: K): nat
  {
    if k in m then m[k] else 0
  }
}
