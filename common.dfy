/** Shared vocabulary of the emulator model: bytes, the exceptions the
    source raises, and the result types that carry them. */
module Common {

  /** A memory cell, a register or a sprite row: an integer in 0..255. */
  type byte = x: int | 0 <= x < 256

  /** The exceptions the emulator's operations can end in. `IndexError`,
      `ValueError`, `KeyError`, `TypeError`, `NotImplementedError` and
      `RuntimeError` are the Python built-ins the source raises or runs
      into. */
  datatype Error =
    | IndexError
    | ValueError
    | KeyError
    | TypeError
    | NotImplementedError
    | RuntimeError

  /** The value of an operation, or the exception it raised. */
  datatype Result<+T> = Ok(value: T) | Err(error: Error)

  /** Outcome of an operation that returns nothing but may raise. */
  datatype Outcome = Pass | Fail(error: Error)

  datatype Option<+T> = None | Some(value: T)
}
