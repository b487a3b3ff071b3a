/** Shared result types and the error taxonomy of the client. */
module Base {

  datatype Option<+T> = None | Some(value: T)

  /** The exceptions the client raises, one constructor per distinct cause. */
  datatype Error =
    | NoResponse                   // Exception('no response received')
    | NotEnoughValues(got: nat)    // ValueError when unpacking a too-short slice
    | NotAnInt(text: string)       // ValueError from int() on a lot-size field
    | KeyMissing(key: string)      // KeyError on a JSON object
    | NotSubscriptable             // TypeError: indexing a non-object by a string
    | WrongIndexCode               // Exception('Wrong index code')
    | Transport                    // failure of the warm-up request of a new session

  /** A value, or the exception that the Python code would raise instead. */
  datatype Result<+T> = Ok(value: T) | Err(error: Error)
}
