/** The optional values of the model: a JavaScript value that may be `null`
    or `undefined` is an `Option`. */
module Wrappers {

  datatype Option<+T> = None | Some(value: T)

}
