/** Option and Result, for the source's `Option<T>` and `Result<T, FsErr>`. */
module Wrappers {
  datatype Option<+T> = None | Some(value: T)

  datatype Result<+T, +E> = Ok(value: T) | Err(error: E)

  /** The error codes of kernel/src/fs.rs that the modelled operations can return. */
  datatype FsErr = Io | NotFound | Exists | NoSpace | Unsupported | IsDir | NotDir | TooBig | NotFormatted | NotEmpty
}
