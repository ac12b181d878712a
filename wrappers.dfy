/** The optional value returned by the text parsers of this model. */
module Wrappers {

  datatype Option<+T> = None | Some(value: T)

}
