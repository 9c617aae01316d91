/** Small value types shared by the two halves of the model. */
module Common {

  /** Python's `None` or a value. */
  datatype Option<T> = None | Some(value: T)

  /** A value, or the exception that was raised instead of returning one. */
  datatype Result<T, E> = Ok(value: T) | Err(error: E)

  /**
   * The Python values that travel inside an `InvalidRecipient` exception:
   * `InvalidRecipient(x).args == (x,)`, where `x` is a string, a list, or
   * (when `get_envelope_recipients` cannot unwrap an exception) the
   * exception itself, kept as its argument tuple.
   */
  datatype PyValue =
    | Str(s: string)
    | List(items: seq<PyValue>)
    | InvalidRecipientExc(args: seq<PyValue>)

  /** The two signs of the alias grammar, which also prefix a Python int. */
  predicate IsSign(c: char) {
    c == '+' || c == '-'
  }
}
