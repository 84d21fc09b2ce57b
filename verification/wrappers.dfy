/** The option type, used wherever the C code either produces a
    value or has nothing (a scan that does not match, a registry with no free slot). */
module Wrappers {

  datatype Option<+T> = None | Some(value: T)
}
