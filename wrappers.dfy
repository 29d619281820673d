/** The optional value used for TypeScript's optional fields (`field?: T`),
    for `T | null` parameters and for lookups that may find nothing. */
module Wrappers {

  datatype Option<+T> = None | Some(value: T)
}
