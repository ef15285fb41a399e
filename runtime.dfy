/**
 * The few notions of the Python runtime that the formatter relies on:
 * an optional value, the exceptions the formatter can raise, and a result
 * that either carries a value or the exception that aborted the call.
 */
module Runtime {

  datatype Option<+T> = None | Some(value: T)

  /** The exceptions that reach the caller of the formatter. */
  datatype Error =
    | TypeError        // calling a non-callable registry key, iterating a non-iterable, ...
    | KeyError         // deleting or looking up a key that is absent
    | ValueError       // a message pattern without named groups
    | AttributeError   // a rule applied to a value that lacks the attribute it reads
    | RecursionError   // the interpreter's recursion limit was reached
    | Raised(reason: string)  // an exception raised by a user-supplied rule

  datatype Result<+T> = Ok(value: T) | Err(error: Error)
}
