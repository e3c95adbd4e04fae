/** The result types shared by every module of the model. */
module Wrappers {

  datatype Option<+T> = None | Some(value: T)

  function GetOr<T>(o: Option<T>, usual: T): T {
    if o.Some? then o.value else usual
  }

  /** `Panic` stands for a Rust panic: an unwrap, an arithmetic overflow or a bad slice. */
  datatype Result<+T> = Ok(value: T) | Err | Panic
}
