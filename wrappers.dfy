/** The optional-value datatype used for the model's "maybe" results. */
module Wrappers {

  datatype Option<T> = None | Some(value: T)

}
