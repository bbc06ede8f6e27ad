/** The two failure-carrying shapes of the Rust code: `Option<T>` and
    `Result<T, E>`. */
module Results {

  datatype Option<T> = None | Some(value: T)

  datatype Result<T, E> = Ok(value: T) | Err(error: E)
}
