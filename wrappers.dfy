/** The optional value used across the model: `None` stands for JavaScript's
    `undefined`/`null` and for Python's `None`. */
module Wrappers {

  datatype Option<+T> = None | Some(value: T)
}
