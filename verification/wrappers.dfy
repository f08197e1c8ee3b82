/** Optional values and results with an error message, used wherever the
    editor returns `None` or raises an exception. */
module Wrappers {

  datatype Option<T> = None | Some(value: T)

  /** `Err` stands for a raised `ValueError`/`TypeError`/`KeyError`; the
      message is informative only. */
  datatype Result<T> = Ok(value: T) | Err(msg: string)
}
