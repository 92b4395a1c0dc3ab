/** Success-or-failure values shared by the token ledger and the escrow program. */
module Results {

  /** The value an instruction produces, or the error that aborted it. */
  datatype Result<+T, +E> = Ok(value: T) | Err(error: E)

  /** An instruction outcome that carries no value: `ProgramResult`. */
  datatype Outcome<+E> = Pass | Fail(error: E)
}
