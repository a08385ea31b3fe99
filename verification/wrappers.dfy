/** The optional-value datatype used throughout the model. `None` stands for
    JavaScript's `undefined`, `null` and `NaN` wherever the source produces them. */
module Wrappers {

  datatype Option<+T> = None | Some(value: T)
}
