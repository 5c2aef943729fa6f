/** The optional-value datatype used for absent form fields, unparseable ids and failed lookups. */
module Wrappers {

  datatype Option<+T> = None | Some(value: T)
}
