/** An Option type, used for host calls that may yield "no value" (NaN). */
module Wrappers {

  datatype Option<+T> = None | Some(value: T)
}
