/** The optional-value datatype used for the source's `string | null` values
    and for lookups that may find nothing. */
module Wrappers {
  datatype Option<+T> = None | Some(value: T)
}
