/** The optional value used for the outcome of an asynchronous request and for
    fields a record may omit. */
module Wrappers {

  datatype Option<+T> = None | Some(value: T)
}
