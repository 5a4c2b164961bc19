/** The two failure-carrying shapes the game code uses: Rust's `Option` and
    the `Result` returned by the article-fetching collaborator. */
module Wrappers {

  datatype Option<+T> = None | Some(value: T)

  datatype Result<+T, +E> = Ok(value: T) | Err(error: E)
}
