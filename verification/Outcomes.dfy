/** Result shapes shared by every component of the model. */
module Outcomes {
  datatype Option<+T> = None | Some(value: T)

  /** A fallible call without a distinguished error: `anyhow::Result` in the Rust sources. */
  datatype Result<+T> = Ok(value: T) | Err

  /** A contract call: it returns, fails with a typed contract error, or traps.
      The host rolls the whole transaction back on `Fail` and on `Trap`. */
  datatype Outcome<+T, +E> = Done(value: T) | Fail(error: E) | Trap

  const U16_MAX: nat := 0xFFFF
  const U32_MAX: nat := 0xFFFF_FFFF
  const U64_MAX: nat := 0xFFFF_FFFF_FFFF_FFFF
  const I64_MAX: nat := 0x7FFF_FFFF_FFFF_FFFF
}
