/** Option and Result, as the Rust code uses them: `Option` for a lookahead
    that may be absent, `Result` for a parse that may fail. */
module Wrappers {

  datatype Option<+T> = None | Some(value: T)

  datatype Result<+T, +E> = Ok(value: T) | Err(error: E)
}
