/** The optional value used throughout the model: `None` stands for the
    JavaScript `undefined` that a lookup returns when nothing is there. */
module Wrappers {

  datatype Option<+T> = None | Some(value: T)
}
