/** Rust's `Option` and `Result`, as far as the lexer model needs them. */
module Results {

  datatype Option<+T> = None | Some(value: T)

  datatype Result<+T, +E> = Ok(value: T) | Err(error: E)
}
