/** The exceptions of src/errors.ts and of the language, as values. */
module Results {
  datatype Option<+T> = None | Some(value: T)

  datatype Error =
    | ValueError
    | TypeError
    | AssertionError
    | DuplicateActivity
    | ActivityNotFound
    | SerializationError

  datatype Result<+T> = Ok(value: T) | Err(error: Error)
}
