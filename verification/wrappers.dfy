/** The optional value the model uses wherever the program may or may not
    produce something: a parsed path parameter, a map lookup. */
module Wrappers {

  datatype Option<+T> = None | Some(value: T)
}
