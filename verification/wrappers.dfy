/** The optional value the model uses wherever the JavaScript source has
    `undefined`, a missing match or a write that does not happen. */
module Wrappers {

  datatype Option<+T> = None | Some(value: T)

}
