/** Nullable values and fallible results, as the application code uses them:
    `string | null` fields become `Option<string>`, and an awaited call that
    either resolves or throws becomes a `Result`. */
module Wrappers {

  datatype Option<+T> = None | Some(value: T)

  datatype Result<+T, +E> = Ok(value: T) | Err(error: E)
}
