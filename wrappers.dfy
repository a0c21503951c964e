/** The optional-value datatype used for values the browser may fail to produce
    (an invalid date, a string that is not a number, a character that is not found). */
module Wrappers {

  datatype Option<+T> = None | Some(value: T)
}
