/** The optional value used throughout the model: `None` stands for a JavaScript
    `null`, `undefined` or other falsy prop. */
module Wrappers {

  datatype Option<+T> = None | Some(value: T)

}
