/** An Option type for "a value, if any": the claimed slot of a spawn, the
    argument record a caller may omit, the parameter write that may be skipped. */
module Wrappers {

  datatype Option<+T> = None | Some(value: T)
}
