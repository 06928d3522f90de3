/** The optional-value datatype the model uses for lookups and decodes that can come back empty. */
module Wrappers {

  datatype Option<+T> = None | Some(value: T)

}
