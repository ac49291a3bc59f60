/** An optional value, used for "the fold reached a division by zero"
    and for the possibly empty result snapshot of the fit loop. */
module Wrappers {

  datatype Option<+T> = None | Some(value: T)

}
