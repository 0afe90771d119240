/** The optional value used across the model: a JavaScript `null`/`undefined` or a
    PHP `isset` that fails becomes `None`. */
module Wrappers {

  datatype Option<+T> = None | Some(value: T)
}
